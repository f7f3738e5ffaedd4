/** Minimal version selection: `pkg_version_cmp` and `pkg_resolve` of `src/pkg.c`. */
module PkgResolve {
  import opened Wrappers

  const MAX_DEPS: nat := 64

  datatype Version = Version(major: nat, minor: nat, patch: nat)

  datatype Dep = Dep(name: string, minimum: Version)

  datatype Entry = Entry(name: string, version: Version)

  /** `pkg_version_cmp` */
  function Cmp(a: Version, b: Version): int {
    if a.major != b.major then a.major - b.major
    else if a.minor != b.minor then a.minor - b.minor
    else a.patch - b.patch
  }

  /** The comparison is a total order. */
  lemma CmpTotal(a: Version, b: Version, c: Version)
    ensures Cmp(a, b) == 0 <==> a == b
    ensures Cmp(a, b) > 0 <==> Cmp(b, a) < 0
    ensures Cmp(a, b) >= 0 && Cmp(b, c) >= 0 ==> Cmp(a, c) >= 0
  {
  }

  /** The lexicographic order of sequences of equal length. */
  predicate Precedes(x: seq<nat>, y: seq<nat>)
    requires |x| == |y|
  {
    x != [] && (x[0] < y[0] || (x[0] == y[0] && Precedes(x[1..], y[1..])))
  }

  function Parts(v: Version): seq<nat> { [v.major, v.minor, v.patch] }

  /** Versions are ordered by major number, then minor number, then patch. */
  lemma CmpLexicographic(a: Version, b: Version)
    ensures Cmp(a, b) < 0 <==> Precedes(Parts(a), Parts(b))
    ensures Cmp(a, b) > 0 <==> Precedes(Parts(b), Parts(a))
  {
    Order3(Parts(a), Parts(b));
    Order3(Parts(b), Parts(a));
  }

  lemma Order3(x: seq<nat>, y: seq<nat>)
    requires |x| == |y| == 3
    ensures Precedes(x, y) <==>
            x[0] < y[0] || (x[0] == y[0] && (x[1] < y[1] || (x[1] == y[1] && x[2] < y[2])))
  {
    assert x[1..][1..] == [x[2]] && y[1..][1..] == [y[2]];
    assert Precedes([x[2]], [y[2]]) <==> x[2] < y[2];
  }

  /** A version that meets every constraint on a name. */
  predicate Satisfies(v: Version, deps: seq<Dep>, name: string) {
    forall i | 0 <= i < |deps| && deps[i].name == name :: Cmp(v, deps[i].minimum) >= 0
  }

  /** The least such version. */
  ghost predicate Least(v: Version, deps: seq<Dep>, name: string) {
    Satisfies(v, deps, name) && forall u: Version | Satisfies(u, deps, name) :: Cmp(u, v) >= 0
  }

  predicate Constrained(deps: seq<Dep>, name: string) { exists i | 0 <= i < |deps| :: deps[i].name == name }

  predicate Listed(lock: seq<Entry>, name: string) { exists j | 0 <= j < |lock| :: lock[j].name == name }

  predicate Distinct(lock: seq<Entry>) { forall i, j | 0 <= i < j < |lock| :: lock[i].name != lock[j].name }

  /** One entry for each constrained name and no other, at the least version that meets its constraints. */
  ghost predicate Resolves(lock: seq<Entry>, deps: seq<Dep>) {
    && Distinct(lock)
    && (forall name :: Constrained(deps, name) <==> Listed(lock, name))
    && (forall j | 0 <= j < |lock| :: Least(lock[j].version, deps, lock[j].name))
  }

  // ----- uniqueness -----

  lemma SatisfiesSame(v: Version, a: seq<Dep>, b: seq<Dep>, name: string)
    requires forall d | d in b :: d in a
    requires Satisfies(v, a, name)
    ensures Satisfies(v, b, name)
  {
    forall i | 0 <= i < |b| && b[i].name == name ensures Cmp(v, b[i].minimum) >= 0 {
      assert b[i] in a;
      var k :| 0 <= k < |a| && a[k] == b[i];
    }
  }

  /** The resolution depends on the constraints only, not on their order or repetition. */
  lemma OrderIndependent(a: seq<Dep>, b: seq<Dep>, la: seq<Entry>, lb: seq<Entry>, e: Entry)
    requires (forall d :: d in a <==> d in b) && Resolves(la, a) && Resolves(lb, b)
    ensures e in la <==> e in lb
  {
    if e in la { EntryTransfers(a, b, la, lb, e); }
    if e in lb { EntryTransfers(b, a, lb, la, e); }
  }

  lemma EntryTransfers(a: seq<Dep>, b: seq<Dep>, la: seq<Entry>, lb: seq<Entry>, e: Entry)
    requires (forall d :: d in a <==> d in b) && Resolves(la, a) && Resolves(lb, b) && e in la
    ensures e in lb
  {
    var j :| 0 <= j < |la| && la[j] == e;
    assert Listed(la, e.name);
    var i :| 0 <= i < |a| && a[i].name == e.name;
    assert a[i] in b;
    assert Constrained(b, e.name);
    var k :| 0 <= k < |lb| && lb[k].name == e.name;
    SatisfiesSame(e.version, a, b, e.name);
    SatisfiesSame(lb[k].version, b, a, e.name);
    CmpTotal(e.version, lb[k].version, e.version);
    assert lb[k] == e;
  }

  // ----- names -----

  function Names(deps: seq<Dep>): set<string> { set i | 0 <= i < |deps| :: deps[i].name }

  function EntryNames(lock: seq<Entry>): set<string> { set j | 0 <= j < |lock| :: lock[j].name }

  lemma {:induction false} EntryCount(lock: seq<Entry>)
    requires Distinct(lock)
    ensures |EntryNames(lock)| == |lock|
  {
    if lock != [] {
      var n := |lock| - 1;
      EntryCount(lock[..n]);
      assert EntryNames(lock) == EntryNames(lock[..n]) + {lock[n].name};
      assert lock[n].name !in EntryNames(lock[..n]);
    }
  }

  lemma NamesCount(lock: seq<Entry>, deps: seq<Dep>)
    requires Resolves(lock, deps)
    ensures Names(deps) == EntryNames(lock) && |Names(deps)| == |lock|
  {
    EntryCount(lock);
    forall name ensures name in Names(deps) <==> name in EntryNames(lock) {
      assert name in Names(deps) <==> Constrained(deps, name);
      assert name in EntryNames(lock) <==> Listed(lock, name);
    }
  }

  lemma SubsetSize<T>(a: set<T>, b: set<T>)
    requires a <= b
    ensures |a| <= |b|
  {
    assert b == a + (b - a);
  }

  // ----- one constraint more -----

  lemma SatisfiesMore(v: Version, deps: seq<Dep>, d: Dep, name: string)
    ensures Satisfies(v, deps + [d], name) <==> Satisfies(v, deps, name) && (d.name == name ==> Cmp(v, d.minimum) >= 0)
  {
    var ds := deps + [d];
    if Satisfies(v, ds, name) {
      forall i | 0 <= i < |deps| && deps[i].name == name
        ensures Cmp(v, deps[i].minimum) >= 0
      {
        assert ds[i] == deps[i];
      }
      assert ds[|deps|] == d;
    }
  }

  lemma LeastMore(v: Version, deps: seq<Dep>, d: Dep, name: string)
    requires Least(v, deps, name)
    ensures Least(if d.name == name && Cmp(d.minimum, v) > 0 then d.minimum else v, deps + [d], name)
  {
    var w := if d.name == name && Cmp(d.minimum, v) > 0 then d.minimum else v;
    hide Satisfies;
    CmpTotal(d.minimum, v, v);
    CmpTotal(v, d.minimum, d.minimum);
    assert Satisfies(w, deps + [d], name) by {
      SatisfiesMore(w, deps, d, name);
      if w != v { SatisfiesAbove(w, v, deps, name); }
    }
    forall u: Version | Satisfies(u, deps + [d], name) ensures Cmp(u, w) >= 0 {
      SatisfiesMore(u, deps, d, name);
    }
  }

  lemma SatisfiesAbove(w: Version, v: Version, deps: seq<Dep>, name: string)
    requires Satisfies(v, deps, name) && Cmp(w, v) >= 0
    ensures Satisfies(w, deps, name)
  {
    forall i | 0 <= i < |deps| && deps[i].name == name
      ensures Cmp(w, deps[i].minimum) >= 0
    {
      CmpTotal(w, v, deps[i].minimum);
    }
  }

  lemma LeastNew(deps: seq<Dep>, d: Dep)
    requires !Constrained(deps, d.name)
    ensures Least(d.minimum, deps + [d], d.name)
  {
    hide Satisfies;
    assert Satisfies(d.minimum, deps, d.name) by { NoConstraint(d.minimum, deps, d.name); }
    CmpTotal(d.minimum, d.minimum, d.minimum);
    SatisfiesMore(d.minimum, deps, d, d.name);
    forall u: Version | Satisfies(u, deps + [d], d.name)
      ensures Cmp(u, d.minimum) >= 0
    {
      SatisfiesMore(u, deps, d, d.name);
    }
  }

  lemma NoConstraint(v: Version, deps: seq<Dep>, name: string)
    requires !Constrained(deps, name)
    ensures Satisfies(v, deps, name)
  {
  }

  lemma ConstrainedMore(deps: seq<Dep>, d: Dep, name: string)
    ensures Constrained(deps + [d], name) <==> Constrained(deps, name) || d.name == name
  {
    var ds := deps + [d];
    if Constrained(deps, name) {
      var i :| 0 <= i < |deps| && deps[i].name == name;
      assert ds[i].name == name;
    }
    assert ds[|deps|] == d;
  }

  lemma RaiseResolves(lock: seq<Entry>, deps: seq<Dep>, d: Dep, k: nat)
    requires Resolves(lock, deps) && k < |lock| && lock[k].name == d.name
    ensures var v := if Cmp(d.minimum, lock[k].version) > 0 then d.minimum else lock[k].version;
            Resolves(lock[k := Entry(d.name, v)], deps + [d])
  {
    var v := if Cmp(d.minimum, lock[k].version) > 0 then d.minimum else lock[k].version;
    var lock' := lock[k := Entry(d.name, v)];
    forall name ensures Constrained(deps + [d], name) <==> Listed(lock', name) {
      ConstrainedMore(deps, d, name);
      ListedSame(lock, lock', name);
      assert Listed(lock, d.name);
    }
    forall j | 0 <= j < |lock'| ensures Least(lock'[j].version, deps + [d], lock'[j].name) {
      hide Least;
      LeastMore(lock[j].version, deps, d, lock[j].name);
    }
  }

  lemma ListedSame(a: seq<Entry>, b: seq<Entry>, name: string)
    requires |a| == |b| && forall j | 0 <= j < |a| :: a[j].name == b[j].name
    ensures Listed(a, name) <==> Listed(b, name)
  {
    if Listed(a, name) { var j :| 0 <= j < |a| && a[j].name == name; assert b[j].name == name; }
    if Listed(b, name) { var j :| 0 <= j < |b| && b[j].name == name; assert a[j].name == name; }
  }

  lemma AppendResolves(lock: seq<Entry>, deps: seq<Dep>, d: Dep)
    requires Resolves(lock, deps) && !Listed(lock, d.name)
    ensures Resolves(lock + [Entry(d.name, d.minimum)], deps + [d])
  {
    var lock' := lock + [Entry(d.name, d.minimum)];
    forall name ensures Constrained(deps + [d], name) <==> Listed(lock', name) {
      ConstrainedMore(deps, d, name);
      ListedMore(lock, Entry(d.name, d.minimum), name);
    }
    assert !Constrained(deps, d.name);
    LeastNew(deps, d);
    forall j | 0 <= j < |lock'| ensures Least(lock'[j].version, deps + [d], lock'[j].name) {
      if j < |lock| {
        assert lock'[j] == lock[j] && Listed(lock, lock[j].name);
        hide Least;
        LeastMore(lock[j].version, deps, d, lock[j].name);
      }
    }
    forall i, j | 0 <= i < j < |lock'| ensures lock'[i].name != lock'[j].name {
      assert lock'[i] == lock[i] && Listed(lock, lock[i].name);
    }
  }

  lemma ListedMore(lock: seq<Entry>, e: Entry, name: string)
    ensures Listed(lock + [e], name) <==> Listed(lock, name) || e.name == name
  {
    var l := lock + [e];
    if Listed(lock, name) { var j :| 0 <= j < |lock| && lock[j].name == name; assert l[j].name == name; }
    assert l[|lock|] == e;
  }

  // ----- the program -----

  class PkgLock {
    const entries: array<Entry>
    var count: nat

    ghost predicate Valid()
      reads this
    {
      entries.Length == MAX_DEPS && count <= MAX_DEPS
    }

    ghost function View(): seq<Entry>
      requires Valid()
      reads this, entries
    {
      entries[..count]
    }

    constructor ()
      ensures Valid() && View() == [] && fresh(entries)
    {
      entries := new Entry[MAX_DEPS](_ => Entry("", Version(0, 0, 0)));
      count := 0;
    }

    method Find(name: string) returns (found: Option<nat>)
      requires Valid()
      ensures found.Some? ==> found.value < count && entries[found.value].name == name
      ensures found.None? ==> !Listed(View(), name)
    {
      var j := 0;
      while j < count
        invariant 0 <= j <= count && forall k | 0 <= k < j :: entries[k].name != name
      {
        if entries[j].name == name { return Some(j); }
        j := j + 1;
      }
      return None;
    }

    /** `pkg_resolve`: it fails exactly when the constraints name more than 64 packages; otherwise each
        name has one entry, at the least version that meets all its constraints. */
    method Resolve(deps: seq<Dep>) returns (ok: bool)
      requires Valid()
      modifies this, entries
      ensures Valid() && (ok <==> |Names(deps)| <= MAX_DEPS)
      ensures ok ==> Resolves(View(), deps)
    {
      hide Resolves, Listed, Names;
      count := 0;
      var i := 0;
      StartResolves();
      assert deps[..0] == [];
      while i < |deps|
        invariant 0 <= i <= |deps| && Valid() && Resolves(View(), deps[..i])
      {
        var d := deps[i];
        assert deps[..i + 1] == deps[..i] + [d];
        ghost var before := View();
        var found := Find(d.name);
        if found.Some? {
          RaiseResolves(before, deps[..i], d, found.value);
          if Cmp(d.minimum, entries[found.value].version) > 0 {
            entries[found.value] := Entry(entries[found.value].name, d.minimum);
            assert View() == before[found.value := Entry(d.name, d.minimum)];
          } else {
            assert before == before[found.value := Entry(d.name, before[found.value].version)];
          }
        } else {
          AppendResolves(before, deps[..i], d);
          if count >= MAX_DEPS {
            TooMany(before + [Entry(d.name, d.minimum)], deps, i + 1);
            return false;
          }
          entries[count] := Entry(d.name, d.minimum);
          count := count + 1;
          assert View() == before + [Entry(d.name, d.minimum)];
        }
        i := i + 1;
      }
      assert deps[..i] == deps;
      NamesCount(View(), deps);
      return true;
    }
  }

  lemma StartResolves()
    ensures Resolves([], [])
  {
  }

  lemma TooMany(lock: seq<Entry>, deps: seq<Dep>, i: nat)
    requires i <= |deps| && Resolves(lock, deps[..i]) && |lock| > MAX_DEPS
    ensures |Names(deps)| > MAX_DEPS
  {
    NamesCount(lock, deps[..i]);
    assert Names(deps[..i]) <= Names(deps);
    SubsetSize(Names(deps[..i]), Names(deps));
  }
}
