// One pass over signed package indexes (scripts/ubuntu-package-cache.py): which package groups are usable.
// Parsing a stanza is taken from outside; it depends on the stanza's text alone.
module PackageIndex {
  import opened Wrappers

  /** Package, version and architecture. */
  type Group = (string, string, string)

  datatype Record = Record(group: Group, fields: map<string, string>)

  /** `None` for a stanza that is malformed or lacks a required field. */
  type Parser = string -> Option<Record>

  type Index = seq<string>

  datatype Signed = Signed(records: map<Group, Record>, sameIndexConflicts: set<Group>, crossIndexConflicts: set<Group>)

  // -------------------------------------------------------------------------- definition

  predicate Names(parse: Parser, stanza: string, g: Group) { parse(stanza).Some? && parse(stanza).value.group == g }

  predicate Occurs(parse: Parser, indexes: seq<Index>, g: Group, stanza: string) {
    Names(parse, stanza, g) && exists i | 0 <= i < |indexes| :: stanza in indexes[i]
  }

  predicate Mentions(parse: Parser, index: Index, g: Group) { exists k | 0 <= k < |index| :: Names(parse, index[k], g) }

  predicate Twice(parse: Parser, index: Index, g: Group) {
    exists a, b | 0 <= a < b < |index| :: Names(parse, index[a], g) && Names(parse, index[b], g)
  }

  predicate HeldTwice(parse: Parser, indexes: seq<Index>, g: Group) {
    exists i | 0 <= i < |indexes| :: Twice(parse, indexes[i], g)
  }

  /** The group occurs, every stanza of it reads `stanza`, and no index holds it twice. */
  ghost predicate Agreed(parse: Parser, indexes: seq<Index>, g: Group, stanza: string) {
    && Occurs(parse, indexes, g, stanza)
    && (forall other | Occurs(parse, indexes, g, other) :: other == stanza)
    && !HeldTwice(parse, indexes, g)
  }

  predicate Usable(signed: Signed, g: Group) {
    g in signed.records && g !in signed.sameIndexConflicts && g !in signed.crossIndexConflicts
  }

  predicate WellFormed(parse: Parser, indexes: seq<Index>) {
    indexes != [] && forall i | 0 <= i < |indexes| :: forall k | 0 <= k < |indexes[i]| :: parse(indexes[i][k]).Some?
  }

  // ------------------------------------------------------------------------------- state

  /** What the pass knows after `seen`: the first stanza of each group, and where later ones disagree. */
  ghost predicate Tracks(parse: Parser, seen: seq<Index>, first: map<Group, string>, same: set<Group>,
      cross: set<Group>) {
    && (forall g :: g in first <==> Present(parse, seen, g))
    && (forall g | g in first :: Occurs(parse, seen, g, first[g]))
    && (forall g :: g in same <==> HeldTwice(parse, seen, g))
    && cross <= first.Keys
    && (forall g | g in first && g !in same :: g in cross <==> Differs(parse, seen, g, first[g]))
  }

  ghost predicate Present(parse: Parser, seen: seq<Index>, g: Group) { exists stanza :: Occurs(parse, seen, g, stanza) }

  /** Some stanza of the group reads otherwise. */
  ghost predicate Differs(parse: Parser, seen: seq<Index>, g: Group, stanza: string) {
    exists other :: Occurs(parse, seen, g, other) && other != stanza
  }

  /** The last index has one more stanza. */
  function Extended(seen: seq<Index>, stanza: string): seq<Index>
    requires seen != []
  {
    seen[..|seen| - 1] + [seen[|seen| - 1] + [stanza]]
  }

  lemma OccursGrows(parse: Parser, seen: seq<Index>, stanza: string, g: Group, other: string)
    requires seen != []
    ensures Occurs(parse, Extended(seen, stanza), g, other)
      <==> Occurs(parse, seen, g, other) || (other == stanza && Names(parse, stanza, g))
  {
    var after, last := Extended(seen, stanza), |seen| - 1;
    assert forall i | 0 <= i < last :: after[i] == seen[i];
    assert after[last] == seen[last] + [stanza];
    if Occurs(parse, seen, g, other) {
      var i :| 0 <= i < |seen| && other in seen[i];
      assert other in after[i];
    }
    if other == stanza { assert stanza in after[last]; }
  }

  lemma TwiceGrows(parse: Parser, seen: seq<Index>, stanza: string, g: Group)
    requires seen != []
    ensures HeldTwice(parse, Extended(seen, stanza), g) <==>
            HeldTwice(parse, seen, g) || (Names(parse, stanza, g) && Mentions(parse, seen[|seen| - 1], g))
  {
    var after, last := Extended(seen, stanza), |seen| - 1;
    assert forall i | 0 <= i < last :: after[i] == seen[i];
    LastTwice(parse, seen[last], stanza, g);
    if HeldTwice(parse, seen, g) {
      var i :| 0 <= i < |seen| && Twice(parse, seen[i], g);
      assert Twice(parse, after[i], g);
    }
    if Names(parse, stanza, g) && Mentions(parse, seen[last], g) { assert Twice(parse, after[last], g); }
  }

  lemma LastTwice(parse: Parser, index: Index, stanza: string, g: Group)
    ensures Twice(parse, index + [stanza], g) <==>
            Twice(parse, index, g) || (Names(parse, stanza, g) && Mentions(parse, index, g))
  {
    var after := index + [stanza];
    assert forall k | 0 <= k < |index| :: after[k] == index[k];
    if Names(parse, stanza, g) && Mentions(parse, index, g) {
      var k :| 0 <= k < |index| && Names(parse, index[k], g);
      assert Names(parse, after[k], g) && Names(parse, after[|index|], g);
    }
    if Twice(parse, index, g) {
      var a, b :| 0 <= a < b < |index| && Names(parse, index[a], g) && Names(parse, index[b], g);
      assert Names(parse, after[a], g) && Names(parse, after[b], g);
    }
  }

  lemma EmptyIndexAdded(parse: Parser, seen: seq<Index>, first: map<Group, string>, same: set<Group>, cross: set<Group>)
    requires Tracks(parse, seen, first, same, cross)
    ensures Tracks(parse, seen + [[]], first, same, cross)
  {
    var after := seen + [[]];
    forall g, stanza ensures Occurs(parse, after, g, stanza) <==> Occurs(parse, seen, g, stanza) {
      assert forall i | 0 <= i < |seen| :: after[i] == seen[i];
    }
    forall g ensures HeldTwice(parse, after, g) <==> HeldTwice(parse, seen, g) {
      assert forall i | 0 <= i < |seen| :: after[i] == seen[i];
    }
  }

  /** What one more stanza of a group changes. */
  lemma OneMoreStanza(parse: Parser, seen: seq<Index>, stanza: string, g: Group)
    requires seen != [] && Names(parse, stanza, g)
    ensures var after := Extended(seen, stanza);
      && (forall h :: Present(parse, after, h) <==> Present(parse, seen, h) || h == g)
      && (forall h, reference ::
          Differs(parse, after, h, reference)
          <==> Differs(parse, seen, h, reference) || (h == g && stanza != reference))
      && (forall h, other | Occurs(parse, seen, h, other) :: Occurs(parse, after, h, other))
      && Occurs(parse, after, g, stanza)
      && (forall h ::
          HeldTwice(parse, after, h) <==> HeldTwice(parse, seen, h) || (h == g && Mentions(parse, seen[|seen| - 1], g)))
  {
    var after := Extended(seen, stanza);
    forall h, other ensures Occurs(parse, after, h, other)
      <==> Occurs(parse, seen, h, other) || (other == stanza && h == g) {
      OccursGrows(parse, seen, stanza, h, other);
    }
    forall h ensures HeldTwice(parse, after, h)
      <==> HeldTwice(parse, seen, h) || (h == g && Mentions(parse, seen[|seen| - 1], g)) {
      TwiceGrows(parse, seen, stanza, h);
    }
    forall h ensures Present(parse, after, h) <==> Present(parse, seen, h) || h == g {
      if Present(parse, seen, h) {
        var other :| Occurs(parse, seen, h, other);
        assert Occurs(parse, after, h, other);
      }
      assert Occurs(parse, after, g, stanza);
    }
    forall h, reference ensures Differs(parse, after, h, reference)
      <==> Differs(parse, seen, h, reference) || (h == g && stanza != reference) {
      if Differs(parse, seen, h, reference) {
        var other :| Occurs(parse, seen, h, other) && other != reference;
        assert Occurs(parse, after, h, other);
      }
      assert Occurs(parse, after, g, stanza);
    }
  }

  /** A group this index has shown already. */
  lemma RepeatTracked(parse: Parser, seen: seq<Index>, first: map<Group, string>, same: set<Group>, cross: set<Group>,
      stanza: string, g: Group)
    requires seen != [] && Tracks(parse, seen, first, same, cross) && Names(parse, stanza, g)
      && Mentions(parse, seen[|seen| - 1], g)
    ensures Tracks(parse, Extended(seen, stanza), first, same + {g}, cross)
  {
    OneMoreStanza(parse, seen, stanza, g);
    var k :| 0 <= k < |seen[|seen| - 1]| && Names(parse, seen[|seen| - 1][k], g);
    assert Occurs(parse, seen, g, seen[|seen| - 1][k]);
  }

  /** A group an earlier index has recorded. */
  lemma KnownTracked(parse: Parser, seen: seq<Index>, first: map<Group, string>, same: set<Group>, cross: set<Group>,
      stanza: string, g: Group)
    requires seen != [] && Tracks(parse, seen, first, same, cross) && Names(parse, stanza, g)
      && !Mentions(parse, seen[|seen| - 1], g)
    requires g in first
    ensures Tracks(parse, Extended(seen, stanza), first, same, if first[g] != stanza then cross + {g} else cross)
  {
    OneMoreStanza(parse, seen, stanza, g);
  }

  /** A group seen for the first time. */
  lemma NewTracked(parse: Parser, seen: seq<Index>, first: map<Group, string>, same: set<Group>, cross: set<Group>,
      stanza: string, g: Group)
    requires seen != [] && Tracks(parse, seen, first, same, cross) && Names(parse, stanza, g)
      && !Mentions(parse, seen[|seen| - 1], g)
    requires g !in first
    ensures Tracks(parse, Extended(seen, stanza), first[g := stanza], same, cross)
  {
    OneMoreStanza(parse, seen, stanza, g);
  }

  // -------------------------------------------------------------------------------- pass

  /**
   * `signed_records`: fails exactly on a missing index or an unreadable stanza; otherwise a group is usable exactly
   * when it occurs, all its stanzas are identical and no index holds it twice, and its record is that stanza's.
   */
  method SignedRecords(parse: Parser, indexes: seq<Index>) returns (r: Option<Signed>)
    ensures r.Some? <==> WellFormed(parse, indexes)
    ensures r.Some? ==> forall g :: Usable(r.value, g) <==> exists stanza :: Agreed(parse, indexes, g, stanza)
    ensures r.Some?
      ==> forall g, stanza | Agreed(parse, indexes, g, stanza) ::
          Usable(r.value, g) && Some(r.value.records[g]) == parse(stanza)
  {
    if |indexes| == 0 { return None; }
    var first: map<Group, string>, records: map<Group, Record> := map[], map[];
    var same: set<Group>, cross: set<Group> := {}, {};
    for i := 0 to |indexes|
      invariant Tracks(parse, indexes[..i], first, same, cross)
      invariant Recorded(parse, first, records)
      invariant forall j | 0 <= j < i :: forall k | 0 <= k < |indexes[j]| :: parse(indexes[j][k]).Some?
    {
      var ok;
      ok, first, records, same, cross := OneIndex(parse, indexes[..i], indexes[i], first, records, same, cross);
      if !ok { return None; }
      assert indexes[..i] + [indexes[i]] == indexes[..i + 1];
    }
    assert indexes[..|indexes|] == indexes;
    Classified(parse, indexes, first, records, same, cross);
    return Some(Signed(records, same, cross));
  }

  ghost predicate Recorded(parse: Parser, first: map<Group, string>, records: map<Group, Record>) {
    first.Keys == records.Keys && forall g | g in first :: parse(first[g]) == Some(records[g])
  }

  /** The inner loop: one index, with the groups it has shown so far. */
  method OneIndex(
    parse: Parser, ghost before: seq<Index>, index: Index, first0: map<Group, string>, records0: map<Group, Record>,
    same0: set<Group>, cross0: set<Group>)
    returns (ok: bool, first: map<Group, string>, records: map<Group, Record>, same: set<Group>, cross: set<Group>)
    requires Tracks(parse, before, first0, same0, cross0) && Recorded(parse, first0, records0)
    ensures ok <==> forall k | 0 <= k < |index| :: parse(index[k]).Some?
    ensures ok ==> Tracks(parse, before + [index], first, same, cross) && Recorded(parse, first, records)
  {
    first, records, same, cross := first0, records0, same0, cross0;
    var sourceGroups: set<Group> := {};
    EmptyIndexAdded(parse, before, first, same, cross);
    for n := 0 to |index|
      invariant forall k | 0 <= k < n :: parse(index[k]).Some?
      invariant forall g :: g in sourceGroups <==> Mentions(parse, index[..n], g)
      invariant Tracks(parse, before + [index[..n]], first, same, cross) && Recorded(parse, first, records)
    {
      var item := parse(index[n]);
      if item.None? { return false, first, records, same, cross; }
      ExtendedIndex(parse, before, index, n);
      sourceGroups, first, records, same, cross :=
        OneStanza(parse, before + [index[..n]], index[n], item.value, sourceGroups, first, records, same, cross);
    }
    assert index[..|index|] == index;
    return true, first, records, same, cross;
  }

  /** The body of the inner loop. */
  method OneStanza(
    parse: Parser, ghost seen: seq<Index>, stanza: string, item: Record, sourceGroups0: set<Group>,
    first0: map<Group, string>, records0: map<Group, Record>, same0: set<Group>, cross0: set<Group>)
    returns (sourceGroups: set<Group>, first: map<Group, string>, records: map<Group, Record>, same: set<Group>,
        cross: set<Group>)
    requires seen != [] && parse(stanza) == Some(item)
    requires Tracks(parse, seen, first0, same0, cross0) && Recorded(parse, first0, records0)
    requires forall g :: g in sourceGroups0 <==> Mentions(parse, seen[|seen| - 1], g)
    ensures sourceGroups == sourceGroups0 + {item.group}
    ensures Tracks(parse, Extended(seen, stanza), first, same, cross) && Recorded(parse, first, records)
  {
    sourceGroups, first, records, same, cross := sourceGroups0, first0, records0, same0, cross0;
    var g := item.group;
    assert Names(parse, stanza, g);
    if g in sourceGroups {
      RepeatTracked(parse, seen, first, same, cross, stanza, g);
      same := same + {g};
      return;
    }
    sourceGroups := sourceGroups + {g};
    if g in records {
      KnownTracked(parse, seen, first, same, cross, stanza, g);
      if first[g] != stanza { cross := cross + {g}; }
    } else {
      NewTracked(parse, seen, first, same, cross, stanza, g);
      first, records := first[g := stanza], records[g := item];
    }
  }

  lemma ExtendedIndex(parse: Parser, before: seq<Index>, index: Index, n: nat)
    requires n < |index|
    ensures Extended(before + [index[..n]], index[n]) == before + [index[..n + 1]]
    ensures forall g ::
        Mentions(parse, index[..n + 1], g) <==> Mentions(parse, index[..n], g) || Names(parse, index[n], g)
  {
    assert index[..n + 1] == index[..n] + [index[n]];
    assert (before + [index[..n]])[..|before|] == before;
    forall g ensures Mentions(parse, index[..n + 1], g)
      <==> Mentions(parse, index[..n], g) || Names(parse, index[n], g) {
      assert forall k | 0 <= k < n :: index[..n + 1][k] == index[..n][k];
      assert index[..n + 1][n] == index[n];
    }
  }

  lemma Classified(parse: Parser, indexes: seq<Index>, first: map<Group, string>, records: map<Group, Record>,
      same: set<Group>, cross: set<Group>)
    requires Tracks(parse, indexes, first, same, cross) && Recorded(parse, first, records)
    ensures forall g :: Usable(Signed(records, same, cross), g) <==> exists stanza :: Agreed(parse, indexes, g, stanza)
    ensures forall g, stanza | Agreed(parse, indexes, g, stanza) ::
        Usable(Signed(records, same, cross), g) && Some(records[g]) == parse(stanza)
  {
    var signed := Signed(records, same, cross);
    forall g ensures Usable(signed, g) ==> Agreed(parse, indexes, g, if g in first then first[g] else "") {}
    forall g, stanza | Agreed(parse, indexes, g, stanza) ensures Usable(signed, g)
      && Some(records[g]) == parse(stanza) {
      assert Occurs(parse, indexes, g, stanza);
    }
  }

  /** Which groups agree, and on what, does not depend on the order in which indexes are read. */
  lemma OrderDoesNotMatter(parse: Parser, indexes: seq<Index>, reordered: seq<Index>, g: Group, stanza: string)
    requires multiset(indexes) == multiset(reordered)
    ensures Agreed(parse, indexes, g, stanza) <==> Agreed(parse, reordered, g, stanza)
  {
    SameMembers(indexes, reordered);
    SameMembers(reordered, indexes);
    if Agreed(parse, indexes, g, stanza) { AgreedTransfers(parse, indexes, reordered, g, stanza); }
    if Agreed(parse, reordered, g, stanza) { AgreedTransfers(parse, reordered, indexes, g, stanza); }
  }

  lemma SameMembers(a: seq<Index>, b: seq<Index>)
    requires multiset(a) == multiset(b)
    ensures forall k | 0 <= k < |a| :: a[k] in b
  {
    forall k | 0 <= k < |a| ensures a[k] in b {
      assert a[k] in multiset(a);
      assert a[k] in multiset(b);
    }
  }

  lemma AgreedTransfers(parse: Parser, a: seq<Index>, b: seq<Index>, g: Group, stanza: string)
    requires Agreed(parse, a, g, stanza) && (forall k | 0 <= k < |a| :: a[k] in b)
      && (forall k | 0 <= k < |b| :: b[k] in a)
    ensures Agreed(parse, b, g, stanza)
  {
    OccursTransfers(parse, a, b, g, stanza);
    forall other | Occurs(parse, b, g, other) ensures other == stanza { OccursTransfers(parse, b, a, g, other); }
    forall i | 0 <= i < |b| ensures !Twice(parse, b[i], g) {
      var j :| 0 <= j < |a| && a[j] == b[i];
    }
  }

  lemma OccursTransfers(parse: Parser, a: seq<Index>, b: seq<Index>, g: Group, stanza: string)
    requires Occurs(parse, a, g, stanza) && forall k | 0 <= k < |a| :: a[k] in b
    ensures Occurs(parse, b, g, stanza)
  {
    var i :| 0 <= i < |a| && stanza in a[i];
    var j :| 0 <= j < |b| && b[j] == a[i];
    assert stanza in b[j];
  }

  /** Reading the same indexes in two orders gives the same usable groups with the same records. */
  method ReadInTwoOrders(parse: Parser, indexes: seq<Index>, reordered: seq<Index>)
      returns (a: Option<Signed>, b: Option<Signed>)
    requires multiset(indexes) == multiset(reordered)
    ensures a.Some? <==> b.Some?
    ensures a.Some? ==> forall g :: Usable(a.value, g) <==> Usable(b.value, g)
    ensures a.Some? ==> forall g | Usable(a.value, g) && Usable(b.value, g) :: a.value.records[g] == b.value.records[g]
  {
    a := SignedRecords(parse, indexes);
    b := SignedRecords(parse, reordered);
    SameMembers(indexes, reordered);
    SameMembers(reordered, indexes);
    assert |multiset(indexes)| == |indexes| && |multiset(reordered)| == |reordered|;
    forall g, stanza ensures Agreed(parse, indexes, g, stanza) <==> Agreed(parse, reordered, g, stanza) {
      OrderDoesNotMatter(parse, indexes, reordered, g, stanza);
    }
  }
}
