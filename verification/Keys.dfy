/** Artifact keys, and the places they name in every tier (crates/dagron-artifact/src/lib.rs). */
module Keys {
  datatype Key = Key(run: string, task: string, name: string)

  predicate Safe(c: char) {
    'a' <= c <= 'z' || 'A' <= c <= 'Z' || '0' <= c <= '9' || c in "-_."
  }

  function Cleaned(s: string): (r: string)
    ensures |r| == |s| && forall i :: 0 <= i < |s| ==> r[i] == if Safe(s[i]) then s[i] else '_'
  {
    seq(|s|, i requires 0 <= i < |s| => if Safe(s[i]) then s[i] else '_')
  }

  function Sanitize(s: string): string {
    if s == "" || s == "." || s == ".." then "_" else Cleaned(s)
  }

  /** A part of a path that is one plain name, and leads nowhere else. */
  predicate Plain(s: string) {
    s != "" && s != "." && s != ".." && forall c <- s :: Safe(c)
  }

  lemma SanitizedIsPlain(s: string)
    ensures Plain(Sanitize(s))
  {
    var r := Cleaned(s);
    if r == "." {
      assert r[0] == '.';
      assert s == ".";
    } else if r == ".." {
      assert r[0] == '.' && r[1] == '.';
      assert s == "..";
    }
  }

  /** A plain name is kept: what a tier lists under a path is found under it. */
  lemma PlainIsKept(s: string)
    requires Plain(s)
    ensures Sanitize(s) == s
  {
    assert forall i :: 0 <= i < |s| ==> s[i] in s;
    assert Cleaned(s) == s;
  }

  function Path(parts: seq<string>): string
    requires |parts| == 3
  {
    parts[0] + "/" + (parts[1] + "/" + parts[2])
  }

  function Parts(key: Key): (parts: seq<string>)
    ensures |parts| == 3
  {
    [Sanitize(key.run), Sanitize(key.task), Sanitize(key.name)]
  }

  function RelPath(key: Key): string {
    Path(Parts(key))
  }

  lemma SplitOnce(a: string, b: string, x: string, y: string)
    requires '/' !in a && '/' !in b && a + "/" + x == b + "/" + y
    ensures a == b && x == y
  {
    var s := a + "/" + x;
    assert s[|a|] == '/' && s[|b|] == '/';
    assert s[..|a|] == a && s[..|b|] == b;
    assert s[|a| + 1..] == x && s[|b| + 1..] == y;
  }

  lemma PathsDiffer(p: seq<string>, q: seq<string>)
    requires |p| == |q| == 3 && (forall s <- p :: '/' !in s) && (forall s <- q :: '/' !in s)
    requires Path(p) == Path(q)
    ensures p == q
  {
    assert p[0] in p && p[1] in p && q[0] in q && q[1] in q;
    SplitOnce(p[0], q[0], p[1] + "/" + p[2], q[1] + "/" + q[2]);
    SplitOnce(p[1], q[1], p[2], q[2]);
  }

  /** Two keys share a place exactly when each of their parts comes out the same. */
  lemma SamePlaceIff(a: Key, b: Key)
    ensures RelPath(a) == RelPath(b) <==> Parts(a) == Parts(b)
  {
    forall s | s in Parts(a) + Parts(b) ensures '/' !in s {
      SanitizedIsPlain(a.run);
      SanitizedIsPlain(a.task);
      SanitizedIsPlain(a.name);
      SanitizedIsPlain(b.run);
      SanitizedIsPlain(b.task);
      SanitizedIsPlain(b.name);
    }
    if RelPath(a) == RelPath(b) {
      PathsDiffer(Parts(a), Parts(b));
    }
  }
}
