/**
 Template libraries (crates/dagron-api/src/expand.rs, `use:`): a spec imports
 templates of saved workflows, each with every sibling it calls.
 */
module Templates {
  import opened Common
  import opened Graph

  /** A template as declared: its tasks' `template:` calls, and all else as it is. */
  datatype Template = Template(name: Option<string>, calls: seq<string>, body: string)

  /** A `use:` entry: a whole library, or one template of it; or neither. */
  datatype Use = Malformed | Use(lib: string, only: Option<string>)

  type Library = seq<Template>

  type Libraries = map<string, Library>

  datatype Refusal =
    | BadEntry
    | UnknownLibrary(lib: string)
    | EmptyLibrary(lib: string)
    | NoTemplate(lib: string, name: string)
    | Clash(name: string)

  /** Where a template of the merged spec is from. */
  datatype Origin = Local | From(lib: string)

  /** The first template of a name. */
  function Find(templates: Library, name: string): (t: Option<Template>)
    ensures t.Some? ==> t.value in templates && t.value.name == Some(name)
    ensures t.None? ==> forall u <- templates :: u.name != Some(name)
  {
    if templates == [] then None
    else if templates[0].name == Some(name) then Some(templates[0])
    else Find(templates[1..], name)
  }

  predicate Declares(templates: Library, name: string) {
    Find(templates, name).Some?
  }

  function NamesOf(templates: Library): (names: seq<string>)
    ensures forall n :: n in names <==> Declares(templates, n)
  {
    if templates == [] then []
    else if templates[0].name.Some? then [templates[0].name.value] + NamesOf(templates[1..])
    else NamesOf(templates[1..])
  }

  function CallsOf(templates: Library, name: string): seq<string> {
    match Find(templates, name)
    case Some(t) => t.calls
    case None => []
  }

  function CallEdges(templates: Library): Edges {
    set n <- NamesOf(templates), c <- CallsOf(templates, n) :: (n, c)
  }

  /** `n` is a template of the library that `name` is, or calls, or calls through others. */
  ghost predicate InClosure(templates: Library, name: string, n: string) {
    Declares(templates, n) && ReachOrSame(CallEdges(templates), name, n)
  }

  ghost predicate NoRepeat(names: seq<string>) {
    forall i, j :: 0 <= i < j < |names| ==> names[i] != names[j]
  }

  lemma {:induction false} ClosureHoldsPath(templates: Library, out: seq<string>, p: seq<string>)
    requires forall n <- out, c <- CallsOf(templates, n) :: Declares(templates, c) ==> c in out
    requires Walk(CallEdges(templates), p) && p[0] in out && Declares(templates, p[|p| - 1])
    ensures p[|p| - 1] in out
    decreases |p|
  {
    assert (p[0], p[1]) in CallEdges(templates);
    if |p| > 2 {
      assert (p[1], p[2]) in CallEdges(templates);
      assert Walk(CallEdges(templates), p[1..]) by {
        forall i | 0 <= i < |p[1..]| - 1 ensures (p[1..][i], p[1..][i + 1]) in CallEdges(templates) {
          assert (p[i + 1], p[i + 2]) in CallEdges(templates);
        }
      }
      ClosureHoldsPath(templates, out, p[1..]);
    }
  }

  lemma CallsReached(templates: Library, name: string, n: string)
    requires Declares(templates, n) && ReachOrSame(CallEdges(templates), name, n)
    ensures forall c <- CallsOf(templates, n) :: ReachOrSame(CallEdges(templates), name, c)
  {
    forall c | c in CallsOf(templates, n) ensures ReachOrSame(CallEdges(templates), name, c) {
      assert (n, c) in CallEdges(templates);
      EdgeReaches(CallEdges(templates), n, c);
      ReachOrSameTransitive(CallEdges(templates), name, n, c);
    }
  }

  /** A template and every sibling it calls: exactly those declared and reached, each once. */
  method TemplateClosure(lib: string, templates: Library, name: string) returns (r: Result<seq<string>, Refusal>)
    ensures r.Ok? <==> Declares(templates, name)
    ensures r.Err? ==> r.error == NoTemplate(lib, name)
    ensures r.Ok? ==> NoRepeat(r.value)
    ensures r.Ok? ==> forall n :: n in r.value <==> InClosure(templates, name, n)
  {
    if !Declares(templates, name) {
      return Err(NoTemplate(lib, name));
    }
    var out: seq<string> := [];
    var stack := [name];
    ghost var edges := CallEdges(templates);
    ghost var left := set n <- NamesOf(templates);
    while stack != []
      invariant forall n :: n in left <==> Declares(templates, n) && n !in out
      invariant NoRepeat(out)
      invariant forall n <- out :: InClosure(templates, name, n)
      invariant forall n <- stack :: ReachOrSame(edges, name, n)
      invariant name in out || name in stack
      invariant forall n <- out, c <- CallsOf(templates, n) :: Declares(templates, c) ==> c in out || c in stack
      decreases left, |stack|
    {
      var n := stack[|stack| - 1];
      ghost var was := stack;
      stack := stack[..|stack| - 1];
      assert forall m <- was :: m == n || m in stack;
      if n in out {
        continue;
      }
      if Declares(templates, n) {
        CallsReached(templates, name, n);
        stack := stack + CallsOf(templates, n);
        out := out + [n];
        left := left - {n};
      }
    }
    forall n | InClosure(templates, name, n) ensures n in out {
      if n != name {
        var p :| Walk(edges, p) && p[0] == name && p[|p| - 1] == n;
        ClosureHoldsPath(templates, out, p);
      }
    }
    return Ok(out);
  }

  // ── merging imports ────────────────────────────────────────────────────────

  predicate ValidUse(libs: Libraries, u: Use) {
    && u.Use?
    && u.lib in libs && libs[u.lib] != []
    && (u.only.Some? ==> Declares(libs[u.lib], u.only.value))
  }

  /** Entry `u` asks for template `n`. */
  ghost predicate Wants(libs: Libraries, u: Use, n: string)
    requires ValidUse(libs, u)
  {
    match u.only
    case None => Declares(libs[u.lib], n)
    case Some(t) => InClosure(libs[u.lib], t, n)
  }

  /** An entry among `uses` asks for `n` of `lib`. */
  ghost predicate Imports(libs: Libraries, uses: seq<Use>, lib: string, n: string) {
    exists u :: u in uses && ValidUse(libs, u) && u.lib == lib && Wants(libs, u, n)
  }

  /** No template is wanted of two libraries, nor one the spec declares. */
  ghost predicate NoClash(local: Library, libs: Libraries, uses: seq<Use>) {
    && (forall lib, n :: Imports(libs, uses, lib, n) ==> !Declares(local, n))
    && (forall lib, other, n :: Imports(libs, uses, lib, n) && Imports(libs, uses, other, n) ==> lib == other)
  }

  ghost predicate DistinctNames(templates: Library) {
    forall i, j :: 0 <= i < j < |templates| && templates[i].name.Some? ==> templates[i].name != templates[j].name
  }

  /** `imported` is the templates `owner` gives a library, each once, as that library declares it. */
  ghost predicate Owned(libs: Libraries, imported: Library, owner: map<string, Origin>) {
    && DistinctNames(imported)
    && (forall t <- imported ::
          && t.name.Some? && t.name.value in owner && owner[t.name.value].From?
          && owner[t.name.value].lib in libs
          && Find(libs[owner[t.name.value].lib], t.name.value) == Some(t))
    && (forall n :: n in owner && owner[n].From? ==> Declares(imported, n))
  }

  /** `owner` says where each name is from: the spec, or the library `uses` imports it from. */
  ghost predicate Accounts(local: Library, libs: Libraries, uses: seq<Use>, owner: map<string, Origin>) {
    && (forall n :: Declares(local, n) ==> n in owner && owner[n] == Local)
    && (forall n, l :: Imports(libs, uses, l, n) ==> n in owner && owner[n] == From(l))
    && (forall n <- owner :: OwnerRight(local, libs, uses, n, owner[n]))
  }

  ghost predicate OwnerRight(local: Library, libs: Libraries, uses: seq<Use>, n: string, o: Origin) {
    match o
    case Local => Declares(local, n)
    case From(l) => Imports(libs, uses, l, n)
  }

  /** The same with `wanted` of `lib` besides. */
  ghost predicate AccountsWith(local: Library, libs: Libraries, uses: seq<Use>, lib: string, wanted: seq<string>,
                               owner: map<string, Origin>) {
    && (forall n :: Declares(local, n) ==> n in owner && owner[n] == Local)
    && (forall n, l :: Imports(libs, uses, l, n) ==> n in owner && owner[n] == From(l))
    && (forall n <- wanted :: n in owner && owner[n] == From(lib))
    && (forall n <- owner :: OwnerRight(local, libs, uses, n, owner[n]) || (owner[n] == From(lib) && n in wanted))
  }

  /** One entry's templates, added where they are not there already. */
  method ImportWanted(local: Library, libs: Libraries, uses: seq<Use>, lib: string, wanted: seq<string>,
                      imported: Library, owner: map<string, Origin>)
    returns (r: Result<(Library, map<string, Origin>), Refusal>)
    requires lib in libs && forall n <- wanted :: Declares(libs[lib], n)
    requires Owned(libs, imported, owner) && Accounts(local, libs, uses, owner)
    ensures r.Ok? ==> Owned(libs, r.value.0, r.value.1) && AccountsWith(local, libs, uses, lib, wanted, r.value.1)
    ensures r.Err? ==> r.error.Clash? && r.error.name in wanted
                       && (Declares(local, r.error.name)
                           || exists l :: l != lib && Imports(libs, uses, l, r.error.name))
  {
    var imp, own := imported, owner;
    for j := 0 to |wanted|
      invariant Owned(libs, imp, own) && AccountsWith(local, libs, uses, lib, wanted[..j], own)
    {
      var name := wanted[j];
      assert wanted[..j + 1] == wanted[..j] + [name];
      assert Declares(libs[lib], name);
      if name in own {
        if own[name] == From(lib) {
          continue;
        }
        assert OwnerRight(local, libs, uses, name, own[name]);
        return Err(Clash(name));
      }
      var t := Find(libs[lib], name).value;
      imp := imp + [t];
      own := own[name := From(lib)];
    }
    assert wanted[..|wanted|] == wanted;
    r := Ok((imp, own));
  }

  lemma AccountsSnoc(local: Library, libs: Libraries, uses: seq<Use>, u: Use, after: seq<Use>, wanted: seq<string>,
                     owner: map<string, Origin>)
    requires ValidUse(libs, u) && AccountsWith(local, libs, uses, u.lib, wanted, owner)
    requires forall l, n :: Imports(libs, after, l, n) <==> Imports(libs, uses, l, n) || (l == u.lib && n in wanted)
    ensures Accounts(local, libs, after, owner)
  {
    forall n | n in owner ensures OwnerRight(local, libs, after, n, owner[n]) {
      if owner[n].From? {
        assert Imports(libs, after, owner[n].lib, n)
          <==> Imports(libs, uses, owner[n].lib, n) || (owner[n].lib == u.lib && n in wanted);
      }
    }
  }

  /** What an entry asks for, listed. */
  method Listed(libs: Libraries, u: Use) returns (r: Result<seq<string>, Refusal>)
    ensures r.Ok? <==> ValidUse(libs, u)
    ensures r.Ok? ==> forall n :: n in r.value <==> Wants(libs, u, n)
    ensures r.Err? ==> !r.error.Clash?
  {
    if u.Malformed? {
      return Err(BadEntry);
    }
    if u.lib !in libs {
      return Err(UnknownLibrary(u.lib));
    }
    if libs[u.lib] == [] {
      return Err(EmptyLibrary(u.lib));
    }
    match u.only {
      case None => r := Ok(NamesOf(libs[u.lib]));
      case Some(t) => r := TemplateClosure(u.lib, libs[u.lib], t);
    }
  }

  lemma ImportsKept(libs: Libraries, uses: seq<Use>, more: seq<Use>, lib: string, n: string)
    requires Imports(libs, uses, lib, n) && forall u <- uses :: u in more
    ensures Imports(libs, more, lib, n)
  {
    var u :| u in uses && ValidUse(libs, u) && u.lib == lib && Wants(libs, u, n);
    assert u in more;
  }

  lemma ClashStays(local: Library, libs: Libraries, uses: seq<Use>, u: Use, lib: string, n: string)
    requires ValidUse(libs, u) && u.lib == lib && Wants(libs, u, n)
    requires Declares(local, n) || exists l :: l != lib && Imports(libs, uses, l, n)
    ensures !NoClash(local, libs, uses + [u])
  {
    assert u in uses + [u];
    assert Imports(libs, uses + [u], lib, n);
    if !Declares(local, n) {
      var l :| l != lib && Imports(libs, uses, l, n);
      ImportsKept(libs, uses, uses + [u], l, n);
    }
  }

  lemma ClashKept(local: Library, libs: Libraries, uses: seq<Use>, more: seq<Use>)
    requires !NoClash(local, libs, uses) && forall u <- uses :: u in more
    ensures !NoClash(local, libs, more)
  {
    if lib, n :| Imports(libs, uses, lib, n) && Declares(local, n) {
      ImportsKept(libs, uses, more, lib, n);
    } else {
      var lib, other, n :| Imports(libs, uses, lib, n) && Imports(libs, uses, other, n) && lib != other;
      ImportsKept(libs, uses, more, lib, n);
      ImportsKept(libs, uses, more, other, n);
    }
  }

  ghost predicate AllValid(libs: Libraries, uses: seq<Use>) {
    forall u <- uses :: ValidUse(libs, u)
  }

  ghost predicate Mergeable(local: Library, libs: Libraries, uses: seq<Use>) {
    AllValid(libs, uses) && NoClash(local, libs, uses)
  }

  lemma RefusedEarly(local: Library, libs: Libraries, uses: seq<Use>, before: seq<Use>, u: Use)
    requires !ValidUse(libs, u) || !NoClash(local, libs, before + [u])
    requires before + [u] <= uses
    ensures !Mergeable(local, libs, uses)
  {
    assert u == uses[|before|];
    if ValidUse(libs, u) {
      ClashKept(local, libs, before + [u], uses);
    }
  }

  /** The merged templates: the spec's own first, then each wanted one, once, as its library declares it. */
  ghost predicate Merged(local: Library, libs: Libraries, uses: seq<Use>, out: Library) {
    && |out| >= |local| && out[..|local|] == local
    && DistinctNames(out[|local|..])
    && (forall t <- out[|local|..] ::
          && t.name.Some? && !Declares(local, t.name.value)
          && exists lib :: lib in libs && Imports(libs, uses, lib, t.name.value)
                           && Find(libs[lib], t.name.value) == Some(t))
    && (forall lib, n :: Imports(libs, uses, lib, n) ==> lib in libs && Find(libs[lib], n).Some?
                                                         && Find(libs[lib], n).value in out[|local|..])
  }

  lemma AccountedIsMerged(local: Library, libs: Libraries, uses: seq<Use>, imported: Library, owner: map<string, Origin>)
    requires Owned(libs, imported, owner) && Accounts(local, libs, uses, owner)
    ensures Merged(local, libs, uses, local + imported) && NoClash(local, libs, uses)
  {
    assert (local + imported)[|local|..] == imported;
    forall lib, n | Imports(libs, uses, lib, n)
      ensures lib in libs && Find(libs[lib], n).Some? && Find(libs[lib], n).value in imported
    {
      assert owner[n] == From(lib);
      var t := Find(imported, n).value;
    }
    forall lib, other, n | Imports(libs, uses, lib, n) && Imports(libs, uses, other, n)
      ensures lib == other
    {
      assert owner[n] == From(lib) && owner[n] == From(other);
    }
  }

  /** One entry's imports, after those of `uses`. */
  method ImportUse(local: Library, libs: Libraries, uses: seq<Use>, u: Use,
                   imported: Library, owner: map<string, Origin>)
    returns (r: Result<(Library, map<string, Origin>), Refusal>)
    requires Owned(libs, imported, owner) && Accounts(local, libs, uses, owner)
    ensures r.Ok? ==> ValidUse(libs, u)
    ensures r.Ok? ==> Owned(libs, r.value.0, r.value.1) && Accounts(local, libs, uses + [u], r.value.1)
    ensures r.Err? ==> !ValidUse(libs, u) || !NoClash(local, libs, uses + [u])
  {
    var wanted := Listed(libs, u);
    if wanted.Err? {
      return Err(wanted.error);
    }
    r := ImportWanted(local, libs, uses, u.lib, wanted.value, imported, owner);
    if r.Err? {
      ClashStays(local, libs, uses, u, u.lib, r.error.name);
    } else {
      AccountsSnoc(local, libs, uses, u, uses + [u], wanted.value, r.value.1);
    }
  }

  function LocalOwner(local: Library): (owner: map<string, Origin>)
    ensures forall libs :: Accounts(local, libs, [], owner) && Owned(libs, [], owner)
  {
    map n | n in NamesOf(local) :: Local
  }

  /**
   Append what `uses` names to the spec's own templates. It succeeds exactly
   when every entry is valid and nothing clashes.
   */
  method MergeUses(local: Library, libs: Libraries, uses: seq<Use>) returns (r: Result<Library, Refusal>)
    ensures r.Ok? <==> Mergeable(local, libs, uses)
    ensures r.Ok? ==> Merged(local, libs, uses, r.value)
  {
    var owner := LocalOwner(local);
    var imported: Library := [];
    for i := 0 to |uses|
      invariant AllValid(libs, uses[..i])
      invariant Owned(libs, imported, owner) && Accounts(local, libs, uses[..i], owner)
    {
      var step := ImportUse(local, libs, uses[..i], uses[i], imported, owner);
      assert uses[..i + 1] == uses[..i] + [uses[i]];
      if step.Err? {
        RefusedEarly(local, libs, uses, uses[..i], uses[i]);
        return Err(step.error);
      }
      imported, owner := step.value.0, step.value.1;
    }
    assert uses[..|uses|] == uses;
    AccountedIsMerged(local, libs, uses, imported, owner);
    r := Ok(local + imported);
  }

  /** An imported template's calls are imported with it, from its own library. */
  lemma MergedIsClosed(local: Library, libs: Libraries, uses: seq<Use>, out: Library, t: Template, c: string)
    requires Merged(local, libs, uses, out) && NoClash(local, libs, uses)
    requires t in out[|local|..] && c in t.calls
    ensures exists lib :: lib in libs && Imports(libs, uses, lib, t.name.value)
                          && (Declares(libs[lib], c) ==> Find(libs[lib], c).value in out[|local|..])
  {
    var n := t.name.value;
    var lib :| lib in libs && Imports(libs, uses, lib, n) && Find(libs[lib], n) == Some(t);
    var u :| u in uses && ValidUse(libs, u) && u.lib == lib && Wants(libs, u, n);
    if Declares(libs[lib], c) {
      if u.only.Some? {
        CallsReached(libs[lib], u.only.value, n);
        assert InClosure(libs[lib], u.only.value, c);
      }
      assert Wants(libs, u, c);
      assert Imports(libs, uses, lib, c);
    }
  }

  /** With distinct names of its own, the spec's merged templates have distinct names. */
  lemma MergedIsDistinct(local: Library, libs: Libraries, uses: seq<Use>, out: Library)
    requires Merged(local, libs, uses, out) && DistinctNames(local)
    ensures DistinctNames(out)
  {
    forall i, j | 0 <= i < j < |out| && out[i].name.Some? ensures out[i].name != out[j].name {
      var k := |local|;
      if i >= k {
        assert out[i] == out[k..][i - k] && out[j] == out[k..][j - k];
      } else if j >= k {
        assert out[j] == out[k..][j - k] && out[j] in out[k..];
        assert out[i] == local[i] && out[i] in local;
      } else {
        assert out[i] == local[i] && out[j] == local[j];
      }
    }
  }
}
