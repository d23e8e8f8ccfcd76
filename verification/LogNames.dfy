/**
 What the writings of a task's log are named in a store, and which names a
 removal takes (crates/dagron-artifact/src/log_segments.rs).
 */
module LogNames {
  import opened Common

  // ── numbers ────────────────────────────────────────────────────────────────

  function Digit(d: nat): char
    requires d < 10
  {
    ('0' as int + d) as char
  }

  function Digits(n: nat): (s: string)
    ensures |s| > 0
  {
    (if n < 10 then "" else Digits(n / 10)) + [Digit(n % 10)]
  }

  predicate IsDigit(c: char) {
    '0' <= c <= '9'
  }

  /** What a run of digits says. */
  function Value(s: string): nat
    requires forall c <- s :: IsDigit(c)
  {
    if s == "" then 0
    else
      assert s[|s| - 1] in s && IsDigit(s[|s| - 1]);
      10 * Value(s[..|s| - 1]) + (s[|s| - 1] as int - '0' as int)
  }

  const MOST_DIGITS := 18

  /** A number as a name has one: digits, and not too many. */
  function Number(part: string): Option<nat> {
    if part == "" || |part| > MOST_DIGITS || exists c <- part :: !IsDigit(c) then None else Some(Value(part))
  }

  lemma {:induction false} DigitsSay(n: nat)
    ensures (forall c <- Digits(n) :: IsDigit(c)) && Value(Digits(n)) == n
    decreases n
  {
    var (s, last) := (Digits(n), [Digit(n % 10)]);
    if n < 10 {
      assert s == "" + last == last;
      assert s[..0] == "";
    } else {
      DigitsSay(n / 10);
      assert s == Digits(n / 10) + last;
      assert s[..|s| - 1] == Digits(n / 10) && s[|s| - 1] == Digit(n % 10);
    }
  }

  // ── writings ───────────────────────────────────────────────────────────────

  /** Which writing of which attempt; begun in this order. */
  datatype Writing = Writing(fence: nat, gen: nat)

  predicate Before(a: Writing, b: Writing) {
    a.fence < b.fence || (a.fence == b.fence && a.gen < b.gen)
  }

  /** The name a writing is kept under. */
  function NameOf(w: Writing): string {
    if w.gen == 0 then Digits(w.fence) else Digits(w.fence) + "." + Digits(w.gen)
  }

  function DotAt(s: string): (i: nat)
    ensures i <= |s| && '.' !in s[..i] && (i < |s| ==> s[i] == '.')
  {
    if s == "" || s[0] == '.' then 0
    else
      var i := DotAt(s[1..]);
      assert s[..i + 1] == [s[0]] + s[1..][..i];
      i + 1
  }

  /** The writing a name is; none for any other name. */
  function ParseWriting(name: string): Option<Writing> {
    var i := DotAt(name);
    var fence := Number(name[..i]);
    if i == |name| then if fence.Some? then Some(Writing(fence.value, 0)) else None
    else
      var gen := Number(name[i + 1..]);
      if fence.Some? && gen.Some? then Some(Writing(fence.value, gen.value)) else None
  }

  lemma NumberOfDigits(n: nat)
    ensures Number(Digits(n)) == if |Digits(n)| <= MOST_DIGITS then Some(n) else None
    ensures '.' !in Digits(n)
  {
    DigitsSay(n);
  }

  lemma DotAfter(a: string, b: string)
    requires '.' !in a
    ensures DotAt(a + "." + b) == |a|
    ensures DotAt(a) == |a|
  {
    var s := a + "." + b;
    assert s[|a|] == '.';
    assert forall i :: 0 <= i < |a| ==> s[i] == a[i] && a[i] in a;
    assert forall i :: 0 <= i < DotAt(s) ==> s[i] == s[..DotAt(s)][i] && s[i] in s[..DotAt(s)];
  }

  lemma TwoNumbers(fence: string, gen: string)
    requires '.' !in fence
    ensures ParseWriting(fence + "." + gen)
         == if Number(fence).Some? && Number(gen).Some? then Some(Writing(Number(fence).value, Number(gen).value)) else None
  {
    var name := fence + "." + gen;
    DotAfter(fence, gen);
    assert name[..|fence|] == fence && name[|fence| + 1..] == gen;
  }

  lemma OneNumber(fence: string)
    requires '.' !in fence
    ensures ParseWriting(fence) == if Number(fence).Some? then Some(Writing(Number(fence).value, 0)) else None
  {
    DotAfter(fence, "");
    assert fence[..|fence|] == fence;
  }

  /** A writing's name says which it is exactly while its numbers are of at most eighteen digits. */
  lemma NameParsesIff(w: Writing)
    ensures ParseWriting(NameOf(w)) == Some(w) <==> |Digits(w.fence)| <= MOST_DIGITS && |Digits(w.gen)| <= MOST_DIGITS
  {
    NumberOfDigits(w.fence);
    NumberOfDigits(w.gen);
    if w.gen == 0 {
      OneNumber(Digits(w.fence));
    } else {
      TwoNumbers(Digits(w.fence), Digits(w.gen));
    }
  }

  // ── a removal ──────────────────────────────────────────────────────────────

  /** With a current writing, what a name before it names; with none, anything. */
  predicate Doomed(name: string, current: Option<Writing>) {
    current.None? || (ParseWriting(name).Some? && Before(ParseWriting(name).value, current.value))
  }

  /** What is kept of a task's names. An interrupted removal, made again, takes what is left. */
  method RemoveLog(names: set<string>, current: Option<Writing>) returns (kept: set<string>)
    ensures kept == set name | name in names && !Doomed(name, current)
  {
    kept := names;
    var todo := names;
    while todo != {}
      invariant todo <= names
      invariant kept == set name | name in names && (name in todo || !Doomed(name, current))
      decreases |todo|
    {
      var name :| name in todo;
      todo := todo - {name};
      if Doomed(name, current) {
        kept := kept - {name};
      }
    }
  }
}
