/** UTF-8 as a reader that stops anywhere sees it (section 4 of RFC 3629). */
module Utf8 {
  import opened Common

  /** How the bytes begin: a character of `n` bytes, the start of one, or neither. */
  datatype Lead = Whole(n: nat) | Short | Bad

  predicate Tail(b: Byte) {
    0x80 <= b <= 0xBF
  }

  /** The second byte's range depends on the first. */
  predicate Second(first: Byte, b: Byte) {
    if first == 0xE0 then 0xA0 <= b <= 0xBF
    else if first == 0xED then 0x80 <= b <= 0x9F
    else if first == 0xF0 then 0x90 <= b <= 0xBF
    else if first == 0xF4 then 0x80 <= b <= 0x8F
    else Tail(b)
  }

  /** How many bytes a character begun by `b` has; 0 where none begins so. */
  function Width(b: Byte): (n: nat)
    ensures n <= 4
  {
    if b <= 0x7F then 1
    else if 0xC2 <= b <= 0xDF then 2
    else if 0xE0 <= b <= 0xEF then 3
    else if 0xF0 <= b <= 0xF4 then 4
    else 0
  }

  function First(b: Bytes): (l: Lead)
    requires b != []
    ensures l.Whole? ==> 1 <= l.n <= |b|
    ensures l.Short? ==> |b| <= 3
  {
    var n := Width(b[0]);
    if n == 0 then Bad
    else if n == 1 then Whole(1)
    else if |b| < 2 then Short
    else if !Second(b[0], b[1]) then Bad
    else if n == 2 then Whole(2)
    else if |b| < 3 then Short
    else if !Tail(b[2]) then Bad
    else if n == 3 then Whole(3)
    else if |b| < 4 then Short
    else if !Tail(b[3]) then Bad
    else Whole(4)
  }

  /** How a scan ends: with the bytes, inside a character, or at what is no character. */
  datatype End = Clean | Inside | Broken

  /** How many bytes are whole characters, and what stopped the scan. */
  function Scan(b: Bytes): (r: (nat, End))
    ensures r.0 <= |b|
    ensures r.1 == Clean ==> r.0 == |b|
    ensures r.1 == Inside ==> |b| - r.0 <= 3
    decreases |b|
  {
    if b == [] then (0, Clean)
    else
      match First(b)
      case Whole(n) => var (k, end) := Scan(b[n..]); (n + k, end)
      case Short => (0, Inside)
      case Bad => (0, Broken)
  }

  /** Whole characters, no more. */
  predicate Valid(b: Bytes) {
    Scan(b).1 == Clean
  }

  /** Text as far as it goes: it may stop inside a character. */
  predicate Text(b: Bytes) {
    Scan(b).1 != Broken
  }

  lemma {:induction false} ScanAfter(a: Bytes, b: Bytes)
    requires Valid(a)
    ensures Scan(a + b) == (|a| + Scan(b).0, Scan(b).1)
    decreases |a|
  {
    if a == [] {
      assert a + b == b;
    } else {
      var n := First(a).n;
      assert First(a + b) == Whole(n);
      DropOfConcat(a, b, n);
      ScanAfter(a[n..], b);
    }
  }

  /** The whole characters a scan finds are valid by themselves. */
  lemma {:induction false} ScannedIsValid(b: Bytes)
    ensures Valid(b[..Scan(b).0])
    decreases |b|
  {
    if b != [] && First(b).Whole? {
      var n := First(b).n;
      ScannedIsValid(b[n..]);
      var k := Scan(b).0;
      SliceTwice(b, n, k);
      assert First(b[..k]) == Whole(n);
    }
  }

  lemma {:induction false} TextPrefix(b: Bytes, k: nat)
    requires Text(b) && k <= |b|
    ensures Text(b[..k])
    decreases |b|
  {
    if 0 < k && First(b).Whole? {
      var n := First(b).n;
      if n <= k {
        assert First(b[..k]) == Whole(n);
        SliceTwice(b, n, k);
        TextPrefix(b[n..], k - n);
      }
    }
  }

  /** Past a character's end, text is text. */
  lemma TextAfter(b: Bytes, k: nat)
    requires k <= |b| && Valid(b[..k])
    ensures Text(b) <==> Text(b[k..])
    ensures Valid(b) <==> Valid(b[k..])
  {
    assert b == b[..k] + b[k..];
    ScanAfter(b[..k], b[k..]);
  }

  lemma ValidConcat(a: Bytes, b: Bytes)
    requires Valid(a) && Valid(b)
    ensures Valid(a + b)
  {
    ScanAfter(a, b);
  }

  /** A newline ends a character: no longer one holds it. */
  lemma {:induction false} NewlineEndsCharacter(b: Bytes, k: nat)
    requires Text(b) && k < |b| && b[k] == NEWLINE
    ensures Valid(b[..k + 1])
    decreases |b|
  {
    assert First(b).Whole?;
    var n := First(b).n;
    if k == 0 {
      assert b[..1][1..] == [];
    } else {
      assert n <= k;
      NewlineEndsCharacter(b[n..], k - n);
      SliceTwice(b, n, k + 1);
      assert First(b[..k + 1]) == Whole(n);
    }
  }

  /** A slice that starts on a character is text. */
  lemma SliceIsText(b: Bytes, from: nat, to: nat)
    requires from <= to <= |b| && Text(b) && Valid(b[..from])
    ensures Text(b[from..to])
    ensures to == |b| && Valid(b) ==> Valid(b[from..to])
  {
    TextAfter(b, from);
    assert b[from..][..to - from] == b[from..to];
    TextPrefix(b[from..], to - from);
    if to == |b| {
      assert b[from..to] == b[from..];
    }
  }

  lemma ValidOnward(b: Bytes, from: nat, to: nat)
    requires from <= to <= |b| && Valid(b[..from]) && Valid(b[from..to])
    ensures Valid(b[..to])
  {
    ValidConcat(b[..from], b[from..to]);
    assert b[..to] == b[..from] + b[from..to];
  }
}
