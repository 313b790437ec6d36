/** Dependency closure: from one unit, follow external references through the
    symbol index, depth first. */
module Dependence {
  import opened Bytes
  import opened Loader
  import opened SymbolIndex

  const MAXINPUTS := 512

  /** The records of every unit, and the symbols that were added to the index. */
  datatype Program = Program(units: seq<seq<Reloc>>, added: seq<ExternalSymbol>)

  ghost predicate WellFormed(p: Program) {
    |p.units| <= MAXINPUTS && forall i :: 0 <= i < |p.added| ==> p.added[i].srcunit < |p.units|
  }

  /** The unit that a record refers to, when it is external and its symbol is known. */
  function Provider(p: Program, r: Reloc): Option<nat> {
    if External(r) && r.name != [] && First(p.added, HashOf(r.name)).Some?
    then Some(First(p.added, HashOf(r.name)).value.srcunit)
    else None
  }

  /** This symbol of the index has the record's name by its hash, and no earlier one has. */
  ghost predicate Names(p: Program, r: Reloc, i: nat) {
    && i < |p.added| && p.added[i].namehash == HashOf(r.name)
    && forall j :: 0 <= j < i ==> p.added[j].namehash != HashOf(r.name)
  }

  /** A record with a name and bit 15 of its kind set refers to the unit of the first
      symbol of that name; no other record refers to a unit. */
  lemma ProviderMeans(p: Program, r: Reloc, v: nat)
    ensures Provider(p, r) == Some(v) <==>
              r.kind / 0x8000 % 2 == 1 && r.name != [] && exists i: nat :: Names(p, r, i) && p.added[i].srcunit == v
  {
    var i := FirstWhere(p.added, HashOf(r.name));
    if i < |p.added| {
      assert Names(p, r, i);
    }
    forall k: nat | Names(p, r, k) ensures k == i {
    }
  }

  /** Unit u refers to a symbol that unit v provides. */
  ghost predicate Refers(p: Program, u: nat, v: nat) {
    u < |p.units| && u != v && exists k :: 0 <= k < |p.units[u]| && Provider(p, p.units[u][k]) == Some(v)
  }

  ghost predicate IsPath(p: Program, path: seq<nat>, u: nat, v: nat) {
    && path != [] && path[0] == u && path[|path| - 1] == v
    && forall i :: 0 <= i < |path| - 1 ==> Refers(p, path[i], path[i + 1])
  }

  ghost predicate Reachable(p: Program, u: nat, v: nat) {
    exists path :: IsPath(p, path, u, v)
  }

  lemma ReachesItself(p: Program, u: nat)
    ensures Reachable(p, u, u)
  {
    assert IsPath(p, [u], u, u);
  }

  lemma ReachesThrough(p: Program, u: nat, v: nat, w: nat)
    requires Refers(p, u, v) && Reachable(p, v, w)
    ensures Reachable(p, u, w)
  {
    var path :| IsPath(p, path, v, w);
    assert IsPath(p, [u] + path, u, w);
  }

  ghost predicate Closed(p: Program, members: seq<nat>) {
    forall u, v :: u in members && Refers(p, u, v) ==> v in members
  }

  /** A closed set that holds the start of a path holds its end. */
  lemma {:induction false} ClosedHoldsPath(p: Program, members: seq<nat>, path: seq<nat>, u: nat, v: nat)
    requires Closed(p, members) && u in members && IsPath(p, path, u, v)
    ensures v in members
    decreases |path|
  {
    if |path| > 1 {
      assert Refers(p, path[0], path[1]);
      assert IsPath(p, path[1..], path[1], v) by {
        forall i | 0 <= i < |path[1..]| - 1 ensures Refers(p, path[1..][i], path[1..][i + 1]) {
          assert Refers(p, path[i + 1], path[i + 2]);
        }
      }
      ClosedHoldsPath(p, members, path[1..], path[1], v);
    }
  }

  ghost predicate NoDuplicates(s: seq<nat>) {
    forall i, j :: 0 <= i < j < |s| ==> s[i] != s[j]
  }

  /** Distinct numbers below n are at most n many. */
  lemma {:induction false} AtMost(s: seq<nat>, n: nat)
    requires NoDuplicates(s) && forall v :: v in s ==> v < n
    ensures |s| <= n
  {
    if s == [] {
      return;
    }
    assert s[0] in s;
    if n - 1 in s {
      var i :| 0 <= i < |s| && s[i] == n - 1;
      var t := s[..i] + s[i + 1..];
      forall v | v in t ensures v < n - 1 {
        var j :| 0 <= j < |t| && t[j] == v;
        var x := if j < i then j else j + 1;
        assert t[j] == s[x] && s[x] in s && s[x] != s[i];
      }
      forall j, k | 0 <= j < k < |t| ensures t[j] != t[k] {
        assert t[j] == s[if j < i then j else j + 1] && t[k] == s[if k < i then k else k + 1];
      }
      AtMost(t, n - 1);
    } else {
      AtMost(s, n - 1);
    }
  }

  lemma RoomLeft(s: seq<nat>, u: nat, n: nat)
    requires NoDuplicates(s) && u < n && forall v :: v in s ==> v < n
    ensures u in s || |s| < n
  {
    if u !in s {
      AtMost(s + [u], n);
    }
  }

  /** A set of units kept as an array without duplicates. */
  class UnitSet {
    const members: array<nat>
    var lastentry: nat

    ghost predicate Valid()
      reads this, members
    {
      members.Length == MAXINPUTS && lastentry <= MAXINPUTS && NoDuplicates(members[..lastentry])
    }

    function Elements(): seq<nat>
      requires lastentry <= members.Length
      reads this, members
    {
      members[..lastentry]
    }

    constructor ()
      ensures Valid() && Elements() == [] && fresh(members)
    {
      members := new nat[MAXINPUTS];
      lastentry := 0;
    }

    /** Appends a unit that is not there yet; says whether it did. */
    method AddMember(unit: nat) returns (added: bool)
      requires Valid() && (unit in Elements() || lastentry < MAXINPUTS)
      modifies this, members
      ensures Valid()
      ensures added <==> unit !in old(Elements())
      ensures Elements() == if added then old(Elements()) + [unit] else old(Elements())
    {
      for i := 0 to lastentry
        invariant unit !in members[..i] && lastentry == old(lastentry) && members[..] == old(members[..])
      {
        if members[i] == unit {
          return false;
        }
      }
      assert lastentry < MAXINPUTS;
      members[lastentry] := unit;
      lastentry := lastentry + 1;
      return true;
    }
  }

  /** What a run of the search has added: everything added is reachable from the
      unit it started at, and everything an added unit refers to is there. */
  ghost predicate Gathered(p: Program, before: seq<nat>, after: seq<nat>, root: nat) {
    && before <= after
    && (forall v :: v in after ==> v < |p.units|)
    && (forall v :: v in after ==> v in before || Reachable(p, root, v))
    && (forall u, v :: u in after && u !in before && u != root && Refers(p, u, v) ==> v in after)
  }

  lemma GatheredTwice(p: Program, before: seq<nat>, middle: seq<nat>, after: seq<nat>, root: nat, next: nat)
    requires root in middle && Gathered(p, before, middle, root) && Gathered(p, middle, after, next)
    requires Refers(p, root, next)
    requires forall v :: next in after && next !in middle && Refers(p, next, v) ==> v in after
    ensures Gathered(p, before, after, root)
  {
    forall v | v in after && v !in before ensures Reachable(p, root, v) {
      if v !in middle {
        ReachesThrough(p, root, next, v);
      }
    }
  }

  lemma StartGathered(p: Program, before: seq<nat>, root: nat)
    requires root < |p.units| && forall v :: v in before ==> v < |p.units|
    ensures Gathered(p, before, before + [root], root)
  {
    ReachesItself(p, root);
  }

  lemma AllFound(p: Program, u: nat, members: seq<nat>)
    requires u < |p.units|
    requires forall j :: 0 <= j < |p.units[u]| && Provider(p, p.units[u][j]).Some? ==>
               Provider(p, p.units[u][j]).value in members
    ensures forall v :: Refers(p, u, v) ==> v in members
  {
  }

  /** Adds a unit and, depth first, every unit that its references lead to. */
  method GatherDependence(results: UnitSet, index: SymbolIndex, units: seq<seq<Reloc>>, unitid: nat)
    requires results.Valid() && index.Valid() && unitid < |units|
    requires WellFormed(Program(units, index.added))
    requires forall v :: v in results.Elements() ==> v < |units|
    requires results.members as object != index.buckets as object
    modifies results, results.members
    ensures results.Valid() && unitid in results.Elements()
    ensures Gathered(Program(units, index.added), old(results.Elements()), results.Elements(), unitid)
    ensures unitid !in old(results.Elements()) ==>
              forall v :: Refers(Program(units, index.added), unitid, v) ==> v in results.Elements()
    decreases |units| - results.lastentry, 0
  {
    ghost var p, before := Program(units, index.added), results.Elements();
    RoomLeft(before, unitid, |units|);
    var added := results.AddMember(unitid);
    if !added {
      return;
    }
    StartGathered(p, before, unitid);
    var rs := units[unitid];
    for k := 0 to |rs|
      invariant results.Valid() && index.Valid() && index.added == p.added
      invariant unitid in results.Elements() && |before| < results.lastentry
      invariant Gathered(p, before, results.Elements(), unitid)
      invariant forall j :: 0 <= j < k && Provider(p, rs[j]).Some? ==> Provider(p, rs[j]).value in results.Elements()
    {
      FollowReference(results, index, units, unitid, k, before);
    }
    AllFound(p, unitid, results.Elements());
  }

  /** Searches from the unit that record k refers to, if it is another known unit. */
  method FollowReference(results: UnitSet, index: SymbolIndex, units: seq<seq<Reloc>>, unitid: nat, k: nat,
                         ghost before: seq<nat>)
    requires results.Valid() && index.Valid() && unitid < |units| && k < |units[unitid]|
    requires WellFormed(Program(units, index.added))
    requires results.members as object != index.buckets as object
    requires unitid in results.Elements()
    requires Gathered(Program(units, index.added), before, results.Elements(), unitid)
    modifies results, results.members
    ensures results.Valid() && old(results.Elements()) <= results.Elements()
    ensures Gathered(Program(units, index.added), before, results.Elements(), unitid)
    ensures var v := Provider(Program(units, index.added), units[unitid][k]);
      v.Some? ==> v.value in results.Elements()
    decreases |units| - results.lastentry, 1
  {
    ghost var p, middle := Program(units, index.added), results.Elements();
    var r := units[unitid][k];
    if External(r) {
      var es := index.SymbolFind(r.name);
      if es.Some? && es.value.srcunit != unitid {
        ProviderKnown(p, unitid, k);
        GatherDependence(results, index, units, es.value.srcunit);
        GatheredTwice(p, before, middle, results.Elements(), unitid, es.value.srcunit);
      }
    }
  }

  lemma {:induction false} FirstFromList(symbols: seq<ExternalSymbol>, h: word)
    ensures First(symbols, h).Some? ==> First(symbols, h).value in symbols
  {
    if symbols != [] {
      FirstFromList(symbols[1..], h);
    }
  }

  lemma ProviderKnown(p: Program, u: nat, k: nat)
    requires WellFormed(p) && u < |p.units| && k < |p.units[u]| && Provider(p, p.units[u][k]).Some?
    ensures var v := Provider(p, p.units[u][k]).value; v < |p.units| && (v != u ==> Refers(p, u, v))
  {
    FirstFromList(p.added, HashOf(p.units[u][k].name));
  }

  /** Starting from nothing, the search returns, without duplicates, exactly the units
      that are reachable from the root. */
  method Dependencies(index: SymbolIndex, units: seq<seq<Reloc>>, root: nat) returns (results: UnitSet)
    requires index.Valid() && root < |units| && WellFormed(Program(units, index.added))
    ensures fresh(results) && results.Valid() && NoDuplicates(results.Elements())
    ensures forall v :: v in results.Elements() <==> Reachable(Program(units, index.added), root, v)
  {
    ghost var p := Program(units, index.added);
    results := new UnitSet();
    GatherDependence(results, index, units, root);
    assert Closed(p, results.Elements());
    forall v ensures v in results.Elements() <==> Reachable(p, root, v) {
      if Reachable(p, root, v) {
        var path :| IsPath(p, path, root, v);
        ClosedHoldsPath(p, results.Elements(), path, root, v);
      }
    }
  }
}
