/**
 `BaseService.delete` and the breadth-first cascade behind it. The rows are changed in place; the cleared
 `is_active` flag is the only mark of a visited row.
 */
module SoftDelete {
  import opened Wrappers
  import opened BreadthFirst
  import opened CascadeGraph

  function Editor(schema: Schema, model: ModelName, user: Option<int>, before: Option<int>): Option<int> {
    if user.Some? && model in schema.audited then user else before
  }

  /** `after` is `before` deactivated once by `user`, at a moment between `since` and `until`. */
  predicate Stamped(schema: Schema, model: ModelName, before: Row, after: Row, user: Option<int>, since: int, until: int) {
    && since <= after.updatedAt <= until
    && after == before.(
         isActive := false,
         updatedAt := after.updatedAt,
         updatedBy := Editor(schema, model, user, before.updatedBy))
  }

  /** Exactly the rows of `taken` were deactivated; every other row is as it was. */
  ghost predicate Deactivated(schema: Schema, before: Table, after: Table, taken: set<Key>,
                              user: Option<int>, since: int, until: int) {
    && after.Keys == before.Keys
    && forall k :: k in before ==>
         if k in taken then Stamped(schema, k.model, before[k], after[k], user, since, until)
         else after[k] == before[k]
  }

  /** What a delete changes in the database. */
  datatype Snapshot = Snapshot(rows: Table, clock: int, writes: multiset<Key>)

  /**
   A walk that began at snapshot `start` has come to snapshot `now`: the search invariant holds, and exactly the
   rows seen so far, bar the root, have been written since, each once.
   */
  ghost predicate Walking(schema: Schema, cap: nat, start: Snapshot, now: Snapshot, root: Key, user: Option<int>,
                          frontier: Frontier<Key>, depth: map<Key, nat>, closed: set<Key>) {
    && root in start.rows && !start.rows[root].isActive && start.clock <= now.clock
    && Searching(Edges(schema, start.rows, root), root, cap, frontier, depth, closed)
    && Deactivated(schema, start.rows, now.rows, depth.Keys - {root}, user, start.clock, now.clock)
    && now.writes == start.writes + multiset(depth.Keys - {root})
  }

  function Elements(list: seq<Key>): set<Key> {
    set k | k in list
  }

  /** How `delete` ends, hooks apart; it answers False only for `NotFound`. */
  datatype DeleteOutcome = FilterRaises | NotFound | HardDelete | SoftDeleted

  class Database {
    const schema: Schema
    /** `MAX_CASCADE_DEPTH`, 10 unless a subclass overrides it. */
    const maxCascadeDepth: int
    var rows: Table
    var clock: int
    /** The rows named by "depth cap reached" warnings, in the order logged. */
    var warnings: seq<Key>
    /** How often each row has been written by a delete. */
    ghost var writes: multiset<Key>

    constructor (schema: Schema, rows: Table, clock: int, maxCascadeDepth: int := 10)
      ensures this.schema == schema && this.rows == rows && this.clock == clock
      ensures this.maxCascadeDepth == maxCascadeDepth && warnings == [] && writes == multiset{}
    {
      this.schema := schema;
      this.maxCascadeDepth := maxCascadeDepth;
      this.rows := rows;
      this.clock := clock;
      this.warnings := [];
      this.writes := multiset{};
    }

    function Cap(): nat {
      if maxCascadeDepth < 0 then 0 else maxCascadeDepth
    }

    ghost function State(): Snapshot
      reads this
    {
      Snapshot(rows, clock, writes)
    }

    method Now() returns (t: int)
      modifies this`clock
      ensures old(clock) <= t == clock
    {
      var passed :| 0 <= passed;
      clock := clock + passed;
      t := clock;
    }

    /** `list(queryset)`: the matching rows once each, in whatever order the database returns them. */
    method Materialise(matching: set<Key>) returns (list: seq<Key>)
      ensures forall k :: k in list <==> k in matching
      ensures forall i, j :: 0 <= i < j < |list| ==> list[i] != list[j]
    {
      list := [];
      var left := matching;
      while left != {}
        invariant left <= matching
        invariant forall k :: k in list <==> k in matching - left
        invariant forall i, j :: 0 <= i < j < |list| ==> list[i] != list[j]
        decreases left
      {
        var k :| k in left;
        assert k !in list;
        list := list + [k];
        left := left - {k};
      }
    }

    /** The two queries run for one relation of one row: list the active children, then update them. */
    method DeactivateChildren(rel: Relation, current: Key, user: Option<int>) returns (children: seq<Key>)
      modifies this`rows, this`clock, this`writes
      ensures forall k :: k in children <==> RefersTo(old(rows), rel, current, k) && old(rows)[k].isActive
      ensures forall i, j :: 0 <= i < j < |children| ==> children[i] != children[j]
      ensures old(clock) <= clock
      ensures Deactivated(schema, old(rows), rows, Elements(children), user, old(clock), clock)
      ensures writes == old(writes) + multiset(Elements(children))
    {
      var matching := set k | k in rows && RefersTo(rows, rel, current, k) && rows[k].isActive;
      children := Materialise(matching);
      assert Elements(children) == matching;
      var now := Now();
      rows := map k | k in rows ::
        if k in matching then
          rows[k].(isActive := false, updatedAt := now, updatedBy := Editor(schema, rel.relatedModel, user, rows[k].updatedBy))
        else rows[k];
      writes := writes + multiset(matching);
    }

    /** The loop appending each child with its depth. */
    method Append(frontier: Frontier<Key>, children: seq<Key>, level: nat) returns (longer: Frontier<Key>)
      ensures longer == frontier + Entries(children, level)
    {
      longer := frontier;
      for i := 0 to |children|
        invariant longer == frontier + Entries(children[..i], level)
      {
        longer := longer + [(children[i], level)];
        assert children[..i + 1] == children[..i] + [children[i]];
      }
      assert children[..|children|] == children;
    }

    /** One relation of a popped row: skip it, or deactivate and enqueue its active children one level down. */
    method EnqueueRelation(ghost start: Snapshot, ghost root: Key, ghost known: map<Key, nat>, ghost closed: set<Key>,
                           current: Key, level: nat, user: Option<int>, rest: Frontier<Key>, i: nat)
      returns (frontier: Frontier<Key>, ghost depth: map<Key, nat>)
      requires current in start.rows && level < Cap() && i < |schema.RelatedObjects(current.model)|
      requires Walking(schema, Cap(), start, State(), root, user, [(current, level)] + rest, known, closed)
      modifies this`rows, this`clock, this`writes
      ensures Walking(schema, Cap(), start, State(), root, user, [(current, level)] + frontier, depth, closed)
      ensures Keeps(known, depth) && SeenVia(schema, start.rows, root, i, current, depth, level + 1)
    {
      hide Walking, Deactivated, SeenVia, Extended, Entries;
      frontier, depth := rest, known;
      var rel := schema.RelatedObjects(current.model)[i];
      if schema.Followed(rel) {
        ghost var before := State();
        var children := DeactivateChildren(rel, current, user);
        frontier := Append(rest, children, level + 1);
        depth := Extended(known, children, level + 1);
        RelationWalked(schema, Cap(), start, before, State(), root, user, known, closed, current, level, rest, i, children);
      } else {
        RelationSkipped(schema, start.rows, root, i, current, known, level + 1);
      }
    }

    /** The loop over `_meta.related_objects` for one popped row. */
    method EnqueueChildren(ghost start: Snapshot, ghost root: Key, ghost known: map<Key, nat>, ghost closed: set<Key>,
                           current: Key, level: nat, user: Option<int>, rest: Frontier<Key>)
      returns (frontier: Frontier<Key>, ghost depth: map<Key, nat>)
      requires current in start.rows && level < Cap()
      requires Walking(schema, Cap(), start, State(), root, user, [(current, level)] + rest, known, closed)
      modifies this`rows, this`clock, this`writes
      ensures Walking(schema, Cap(), start, State(), root, user, [(current, level)] + frontier, depth, closed)
      ensures Keeps(known, depth)
      ensures forall c :: c in Next(Edges(schema, start.rows, root), current) ==> c in depth && depth[c] <= level + 1
    {
      hide Walking, Edges, SeenVia;
      frontier, depth := rest, known;
      ghost var below := level + 1;
      for i := 0 to |schema.RelatedObjects(current.model)|
        invariant Walking(schema, Cap(), start, State(), root, user, [(current, level)] + frontier, depth, closed)
        invariant Keeps(known, depth)
        invariant forall j: nat :: j < i ==> SeenVia(schema, start.rows, root, j, current, depth, below)
      {
        ghost var sofar := depth;
        frontier, depth := EnqueueRelation(start, root, depth, closed, current, level, user, frontier, i);
        forall j: nat | j < i ensures SeenVia(schema, start.rows, root, j, current, depth, below) {
          SeenIsKept(schema, start.rows, root, j, current, sofar, depth, below);
        }
      }
      AllNextSeen(schema, start.rows, root, current, depth, below);
    }

    /**
     `_cascade_soft_delete_bfs`. The walk ends on every table, cyclic or not: each turn of the loop pops a row
     that was never popped before, so the cap plays no part in termination.
     */
    method CascadeSoftDeleteBfs(root: Key, user: Option<int>) returns (ghost pops: nat)
      requires root in rows && !rows[root].isActive
      modifies this`rows, this`clock, this`writes, this`warnings
      ensures old(clock) <= clock
      ensures Deactivated(schema, old(rows), rows, Reach(schema, old(rows), root, Cap()) - {root}, user, old(clock), clock)
      ensures writes == old(writes) + multiset(Reach(schema, old(rows), root, Cap()) - {root})
      ensures multiset(warnings) == old(multiset(warnings)) + multiset(AtDistance(schema, old(rows), root, Cap()))
      ensures pops == |Reach(schema, old(rows), root, Cap())|
    {
      hide Walking, Edges, Within, Deactivated, AtCap, Reach, AtDistance;
      ghost var start := State();
      var frontier: Frontier<Key> := [(root, 0)];
      ghost var depth: map<Key, nat> := map[root := 0];
      ghost var closed: set<Key> := {};
      ghost var atCap: set<Key> := {};
      pops := 0;
      WalkStarts(schema, Cap(), start, root, user);
      NothingAtCap(depth, Cap());
      while frontier != []
        invariant Walking(schema, Cap(), start, State(), root, user, frontier, depth, closed)
        invariant AtCap(atCap, closed, depth, Cap())
        invariant multiset(warnings) == old(multiset(warnings)) + multiset(atCap)
        invariant pops == |closed|
        decreases start.rows.Keys - closed
      {
        var (current, level) := frontier[0];
        WalkFront(schema, Cap(), start, State(), root, user, frontier, depth, closed);
        frontier := frontier[1..];
        ghost var known, capped := depth, atCap;
        if level >= maxCascadeDepth {
          warnings := warnings + [current];
          atCap := atCap + {current};
        } else {
          frontier, depth := EnqueueChildren(start, root, depth, closed, current, level, user, frontier);
        }
        PoppedAtCap(capped, closed, known, depth, current, level, Cap());
        WalkCloses(schema, Cap(), start, State(), root, user, current, level, frontier, depth, closed);
        closed := closed + {current};
        pops := pops + 1;
      }
      WalkEnds(schema, Cap(), start, State(), root, user, depth, closed, atCap);
    }

    /**
     `BaseService.delete`. Unless it ends in a soft delete it changes nothing of its own: a hard delete is left to the
     framework's `instance.delete()`, and filtering on `is_active` raises for a model without that field.
     */
    method Delete(pk: Key, soft: bool, activeOnly: bool, cascade: bool, user: Option<int>) returns (outcome: DeleteOutcome)
      modifies this
      ensures outcome == FilterRaises <==> activeOnly && pk.model !in schema.softDeletable
      ensures outcome == NotFound <==>
                outcome != FilterRaises && !(pk in old(rows) && (activeOnly ==> old(rows)[pk].isActive))
      ensures outcome == SoftDeleted <==>
                outcome != FilterRaises && outcome != NotFound && soft && pk.model in schema.softDeletable
      ensures outcome != SoftDeleted ==> rows == old(rows) && writes == old(writes) && warnings == old(warnings)
      ensures outcome == SoftDeleted ==>
                var taken := if cascade then Reach(schema, old(rows), pk, Cap()) else {pk};
                && Deactivated(schema, old(rows), rows, taken, user, old(clock), clock)
                && writes == old(writes) + multiset(taken)
      ensures outcome == SoftDeleted ==>
                var taken := if cascade then Reach(schema, old(rows), pk, Cap()) else {pk};
                && rows.Keys == old(rows).Keys
                && (forall k :: k in rows && k !in taken ==> rows[k] == old(rows)[k])
                && (forall k :: k in rows && k in taken ==>
                      && !rows[k].isActive && rows[k].foreignKeys == old(rows)[k].foreignKeys
                      && old(clock) <= rows[k].updatedAt <= clock
                      && rows[k].updatedBy == if user.Some? && k.model in schema.audited then user else old(rows)[k].updatedBy)
      ensures forall k :: k in rows && k != pk && rows[k] != old(rows)[k] ==>
                exists p :: (p == pk || (p in rows && rows[p] != old(rows)[p])) && HangsFrom(schema, old(rows), p, k)
      ensures outcome == SoftDeleted && !cascade ==> warnings == old(warnings)
      ensures outcome == SoftDeleted && cascade ==>
                multiset(warnings) == old(multiset(warnings)) + multiset(AtDistance(schema, old(rows), pk, Cap()))
    {
      hide Edges, Within, Reach, AtDistance;
      if activeOnly && pk.model !in schema.softDeletable {
        return FilterRaises;
      }
      if pk !in rows || (activeOnly && !rows[pk].isActive) {
        return NotFound;
      }
      if !soft || pk.model !in schema.softDeletable {
        return HardDelete;
      }
      outcome := SoftDeleted;
      var now := Now();
      var row := rows[pk];
      rows := rows[pk := row.(isActive := false, updatedAt := now, updatedBy := Editor(schema, pk.model, user, row.updatedBy))];
      writes := writes + multiset{pk};
      if cascade {
        ghost var flagged := State();
        ghost var pops := CascadeSoftDeleteBfs(pk, user);
        DeleteCascaded(schema, old(State()), flagged, State(), pk, Cap(), user);
        ChangedRowsHang(schema, old(rows), rows, pk, Cap(), user, old(clock), clock);
      }
    }
  }

  // ---------------------------------------------------------------- steps of the method proofs

  ghost predicate Keeps(known: map<Key, nat>, depth: map<Key, nat>) {
    forall k :: k in known ==> k in depth && depth[k] == known[k]
  }

  /** The children found through relation `i` of `parent` have been seen, at `level` or above. */
  ghost predicate SeenVia(schema: Schema, rows: Table, root: Key, i: nat, parent: Key, depth: map<Key, nat>, level: nat) {
    forall c :: Candidate(rows, root, c) && ChildVia(schema, rows, i, parent, c) ==> c in depth && depth[c] <= level
  }

  ghost predicate AtCap(atCap: set<Key>, closed: set<Key>, depth: map<Key, nat>, cap: nat) {
    && atCap <= closed <= depth.Keys
    && forall k :: k in closed ==> (k in atCap <==> depth[k] == cap)
  }

  lemma NothingAtCap(depth: map<Key, nat>, cap: nat)
    ensures AtCap({}, {}, depth, cap)
  {
  }

  lemma PoppedAtCap(atCap: set<Key>, closed: set<Key>, known: map<Key, nat>, depth: map<Key, nat>,
                    current: Key, level: nat, cap: nat)
    requires AtCap(atCap, closed, known, cap) && Keeps(known, depth)
    requires current in known && current !in closed && known[current] == level <= cap
    ensures AtCap(if level >= cap then atCap + {current} else atCap, closed + {current}, depth, cap)
    ensures multiset(atCap + {current}) == multiset(atCap) + multiset{current}
  {
    CountUnion(atCap, {current});
  }

  lemma SeenIsKept(schema: Schema, rows: Table, root: Key, i: nat, parent: Key,
                   known: map<Key, nat>, depth: map<Key, nat>, level: nat)
    requires SeenVia(schema, rows, root, i, parent, known, level) && Keeps(known, depth)
    ensures SeenVia(schema, rows, root, i, parent, depth, level)
  {
  }

  lemma SeenAfterAppending(schema: Schema, rows: Table, root: Key, i: nat, parent: Key,
                           known: map<Key, nat>, children: seq<Key>, level: nat)
    requires forall k :: k in known ==> known[k] <= level
    requires forall k :: ChildVia(schema, rows, i, parent, k) && Candidate(rows, root, k) ==> k in known || k in children
    ensures SeenVia(schema, rows, root, i, parent, Extended(known, children, level), level)
  {
  }

  lemma AllNextSeen(schema: Schema, rows: Table, root: Key, parent: Key, depth: map<Key, nat>, level: nat)
    requires forall i: nat :: i < |schema.RelatedObjects(parent.model)| ==> SeenVia(schema, rows, root, i, parent, depth, level)
    ensures forall c :: c in Next(Edges(schema, rows, root), parent) ==> c in depth && depth[c] <= level
  {
    hide Edges, SeenVia;
    NextIsChild(schema, rows, root, parent);
    forall c | c in Next(Edges(schema, rows, root), parent) ensures c in depth && depth[c] <= level {
      var i: nat :| i < |schema.RelatedObjects(parent.model)| && ChildVia(schema, rows, i, parent, c);
      SeenMeans(schema, rows, root, i, parent, depth, level, c);
    }
  }

  lemma SeenMeans(schema: Schema, rows: Table, root: Key, i: nat, parent: Key, depth: map<Key, nat>, level: nat, c: Key)
    requires SeenVia(schema, rows, root, i, parent, depth, level)
    requires Candidate(rows, root, c) && ChildVia(schema, rows, i, parent, c)
    ensures c in depth && depth[c] <= level
  {
  }

  /** Midway through the walk the active children of a row are its original candidates not yet seen. */
  lemma StillActive(schema: Schema, rows0: Table, rows: Table, rel: Relation, root: Key, depth: map<Key, nat>,
                    user: Option<int>, since: int, until: int, parent: Key, k: Key)
    requires root in rows0 && !rows0[root].isActive && root in depth
    requires Deactivated(schema, rows0, rows, depth.Keys - {root}, user, since, until)
    ensures RefersTo(rows, rel, parent, k) && rows[k].isActive
            <==> RefersTo(rows0, rel, parent, k) && Candidate(rows0, root, k) && k !in depth
  {
  }

  lemma WalkStarts(schema: Schema, cap: nat, start: Snapshot, root: Key, user: Option<int>)
    requires root in start.rows && !start.rows[root].isActive
    ensures Walking(schema, cap, start, start, root, user, [(root, 0)], map[root := 0], {})
  {
    hide Edges;
    StartSearch(Edges(schema, start.rows, root), root, cap);
    var depth: map<Key, nat> := map[root := 0];
    assert depth.Keys - {root} == {};
  }

  lemma WalkFront(schema: Schema, cap: nat, start: Snapshot, now: Snapshot, root: Key, user: Option<int>,
                  frontier: Frontier<Key>, depth: map<Key, nat>, closed: set<Key>)
    requires Walking(schema, cap, start, now, root, user, frontier, depth, closed) && 0 < |frontier|
    ensures var (current, level) := frontier[0];
            && current in start.rows && current !in closed && current in depth && depth[current] == level <= cap
            && frontier == [(current, level)] + frontier[1..]
  {
    hide Edges, Deactivated;
    SearchIsSound(schema, start.rows, root, cap, frontier, depth, closed);
    assert frontier == [frontier[0]] + frontier[1..];
    FrontIsShallowest(Edges(schema, start.rows, root), root, cap, frontier[0].0, frontier[0].1, frontier[1..], depth, closed);
  }

  lemma WalkCloses(schema: Schema, cap: nat, start: Snapshot, now: Snapshot, root: Key, user: Option<int>,
                   current: Key, level: nat, rest: Frontier<Key>, depth: map<Key, nat>, closed: set<Key>)
    requires Walking(schema, cap, start, now, root, user, [(current, level)] + rest, depth, closed)
    requires level < cap ==>
      forall c :: c in Next(Edges(schema, start.rows, root), current) ==> c in depth && depth[c] <= level + 1
    ensures Walking(schema, cap, start, now, root, user, rest, depth, closed + {current})
  {
    hide Edges, Deactivated;
    var frontier := [(current, level)] + rest;
    assert frontier[0] == (current, level) && frontier[1..] == rest;
    CloseFront(Edges(schema, start.rows, root), root, cap, frontier, depth, closed);
  }

  lemma WalkEnds(schema: Schema, cap: nat, start: Snapshot, now: Snapshot, root: Key, user: Option<int>,
                 depth: map<Key, nat>, closed: set<Key>, atCap: set<Key>)
    requires Walking(schema, cap, start, now, root, user, [], depth, closed) && AtCap(atCap, closed, depth, cap)
    ensures start.clock <= now.clock
    ensures var taken := Reach(schema, start.rows, root, cap);
            && closed == taken
            && Deactivated(schema, start.rows, now.rows, taken - {root}, user, start.clock, now.clock)
            && now.writes == start.writes + multiset(taken - {root})
            && atCap == AtDistance(schema, start.rows, root, cap)
  {
    hide Edges, Deactivated, Within;
    var g := Edges(schema, start.rows, root);
    FinishedSearch(g, root, cap, depth, closed);
    LayerIsWithin(g, root, cap);
  }

  /** Flagging the root first and cascading afterwards takes the root and its reach, each once. */
  lemma DeleteCascaded(schema: Schema, before: Snapshot, flagged: Snapshot, after: Snapshot, root: Key, cap: nat, user: Option<int>)
    requires root in before.rows && before.clock <= flagged.clock <= after.clock
    requires Deactivated(schema, before.rows, flagged.rows, {root}, user, before.clock, flagged.clock)
    requires Deactivated(schema, flagged.rows, after.rows, Reach(schema, flagged.rows, root, cap) - {root},
                         user, flagged.clock, after.clock)
    requires flagged.writes == before.writes + multiset{root}
    requires after.writes == flagged.writes + multiset(Reach(schema, flagged.rows, root, cap) - {root})
    ensures var taken := Reach(schema, before.rows, root, cap);
            && Deactivated(schema, before.rows, after.rows, taken, user, before.clock, after.clock)
            && after.writes == before.writes + multiset(taken)
    ensures AtDistance(schema, flagged.rows, root, cap) == AtDistance(schema, before.rows, root, cap)
  {
    hide Edges, Within;
    FlaggingKeepsEdges(schema, before.rows, flagged.rows, root, user, before.clock, flagged.clock);
    var taken := Reach(schema, before.rows, root, cap);
    WithinGrows(Edges(schema, before.rows, root), root, 0, cap);
    assert {root} + (taken - {root}) == taken;
    CountUnion({root}, taken - {root});
    hide Deactivated;
    DeactivatedTwice(schema, before.rows, flagged.rows, after.rows, {root}, taken - {root},
                     user, before.clock, flagged.clock, after.clock);
  }

  lemma FlaggingKeepsEdges(schema: Schema, before: Table, flagged: Table, root: Key, user: Option<int>, since: int, until: int)
    requires Deactivated(schema, before, flagged, {root}, user, since, until)
    ensures Edges(schema, flagged, root) == Edges(schema, before, root)
  {
    hide Edges;
    SameEdges(schema, before, flagged, root);
  }

  lemma RelationWalked(schema: Schema, cap: nat, start: Snapshot, before: Snapshot, now: Snapshot, root: Key,
                       user: Option<int>, known: map<Key, nat>, closed: set<Key>, current: Key, level: nat,
                       rest: Frontier<Key>, i: nat, children: seq<Key>)
    requires current in start.rows && level < cap && i < |schema.RelatedObjects(current.model)|
    requires Walking(schema, cap, start, before, root, user, [(current, level)] + rest, known, closed)
    requires schema.Followed(schema.RelatedObjects(current.model)[i]) && before.clock <= now.clock
    requires var rel := schema.RelatedObjects(current.model)[i];
             forall k :: k in children <==> RefersTo(before.rows, rel, current, k) && before.rows[k].isActive
    requires forall i, j :: 0 <= i < j < |children| ==> children[i] != children[j]
    requires Deactivated(schema, before.rows, now.rows, Elements(children), user, before.clock, now.clock)
    requires now.writes == before.writes + multiset(Elements(children))
    ensures var depth := Extended(known, children, level + 1);
            && Walking(schema, cap, start, now, root, user,
                       [(current, level)] + (rest + Entries(children, level + 1)), depth, closed)
            && Keeps(known, depth) && SeenVia(schema, start.rows, root, i, current, depth, level + 1)
  {
    hide Edges, Searching, Deactivated, Extended, Entries, SeenVia, Elements, CascadeChild, RefersTo;
    var g := Edges(schema, start.rows, root);
    FrontIsShallowest(g, root, cap, current, level, rest, known, closed);
    NewChildren(schema, start.rows, before.rows, root, known, user, start.clock, before.clock, current, i, children);
    AppendChildren(g, root, cap, [(current, level)] + rest, known, closed, children, level + 1);
    AppendIsAssociative([(current, level)], rest, Entries(children, level + 1));
    ExtendedKeys(known, children, level + 1, root);
    CountUnion(known.Keys - {root}, Elements(children));
    DeactivatedTwice(schema, start.rows, before.rows, now.rows, known.Keys - {root}, Elements(children),
                     user, start.clock, before.clock, now.clock);
    SeenAfterAppending(schema, start.rows, root, i, current, known, children, level + 1);
  }

  lemma RelationSkipped(schema: Schema, rows: Table, root: Key, i: nat, parent: Key, known: map<Key, nat>, level: nat)
    requires i < |schema.RelatedObjects(parent.model)| && !schema.Followed(schema.RelatedObjects(parent.model)[i])
    ensures SeenVia(schema, rows, root, i, parent, known, level)
  {
  }

  lemma AppendIsAssociative<T>(a: seq<T>, b: seq<T>, c: seq<T>)
    ensures (a + b) + c == a + (b + c)
  {
  }

  lemma ExtendedKeys(known: map<Key, nat>, children: seq<Key>, level: nat, root: Key)
    requires root in known && forall k :: k in children ==> k !in known
    ensures var found, depth := Elements(children), Extended(known, children, level);
            && depth.Keys - known.Keys == found
            && depth.Keys - {root} == (known.Keys - {root}) + found
            && found !! known.Keys - {root}
            && Keeps(known, depth)
  {
  }

  lemma CountUnion(a: set<Key>, b: set<Key>)
    requires a !! b
    ensures multiset(a + b) == multiset(a) + multiset(b)
  {
  }

  lemma DeactivatedTwice(schema: Schema, a: Table, b: Table, c: Table, first: set<Key>, second: set<Key>,
                         user: Option<int>, since: int, mid: int, until: int)
    requires first !! second && since <= mid <= until
    requires Deactivated(schema, a, b, first, user, since, mid)
    requires Deactivated(schema, b, c, second, user, mid, until)
    ensures Deactivated(schema, a, c, first + second, user, since, until)
  {
  }

  lemma FrontIsShallowest(g: Graph<Key>, root: Key, cap: nat, current: Key, level: nat, rest: Frontier<Key>,
                          depth: map<Key, nat>, closed: set<Key>)
    requires Searching(g, root, cap, [(current, level)] + rest, depth, closed)
    ensures root in depth && current in depth && current !in closed && depth[current] == level <= cap
    ensures closed <= depth.Keys
    ensures forall k :: k in depth ==> depth[k] <= level + 1
  {
    var frontier := [(current, level)] + rest;
    assert frontier[0] == (current, level);
    DepthsNearFront(frontier, depth, closed);
  }

  lemma ChildIsNext(schema: Schema, rows: Table, root: Key, parent: Key, i: nat, c: Key)
    requires parent in rows
    ensures ChildVia(schema, rows, i, parent, c) && Candidate(rows, root, c) ==> c in Next(Edges(schema, rows, root), parent)
  {
  }

  /** The rows listed for one relation are the candidates among its children that the walk has not yet seen. */
  lemma NewChildren(schema: Schema, rows0: Table, rows: Table, root: Key, known: map<Key, nat>,
                    user: Option<int>, since: int, until: int, parent: Key, i: nat, children: seq<Key>)
    requires root in rows0 && !rows0[root].isActive && root in known && parent in rows0
    requires i < |schema.RelatedObjects(parent.model)| && schema.Followed(schema.RelatedObjects(parent.model)[i])
    requires Deactivated(schema, rows0, rows, known.Keys - {root}, user, since, until)
    requires var rel := schema.RelatedObjects(parent.model)[i];
             forall k :: k in children <==> RefersTo(rows, rel, parent, k) && rows[k].isActive
    ensures forall k :: k in children ==> k in Next(Edges(schema, rows0, root), parent) && k !in known
    ensures forall k :: ChildVia(schema, rows0, i, parent, k) && Candidate(rows0, root, k) ==> k in known || k in children
  {
    hide Deactivated;
    forall k
      ensures k in children <==> ChildVia(schema, rows0, i, parent, k) && Candidate(rows0, root, k) && k !in known
      ensures k in children ==> k in Next(Edges(schema, rows0, root), parent)
    {
      StillActive(schema, rows0, rows, schema.RelatedObjects(parent.model)[i], root, known, user, since, until, parent, k);
      ChildIsNext(schema, rows0, root, parent, i, k);
    }
  }

  lemma NextIsChild(schema: Schema, rows: Table, root: Key, parent: Key)
    ensures forall c :: c in Next(Edges(schema, rows, root), parent) ==>
              Candidate(rows, root, c) && exists i: nat :: i < |schema.RelatedObjects(parent.model)| && ChildVia(schema, rows, i, parent, c)
  {
    forall c | c in Next(Edges(schema, rows, root), parent)
      ensures exists i: nat :: i < |schema.RelatedObjects(parent.model)| && ChildVia(schema, rows, i, parent, c)
    {
      assert CascadeChild(schema, rows, parent, c);
    }
  }

  lemma SearchIsSound(schema: Schema, rows: Table, root: Key, cap: nat, frontier: Frontier<Key>,
                      depth: map<Key, nat>, closed: set<Key>)
    requires Searching(Edges(schema, rows, root), root, cap, frontier, depth, closed) && root in rows
    ensures root in depth && depth.Keys <= rows.Keys
  {
    hide Edges, Within;
    SeenAreRows(schema, rows, root, cap, depth);
  }

  lemma SeenAreRows(schema: Schema, rows: Table, root: Key, cap: nat, depth: map<Key, nat>)
    requires Sound(Edges(schema, rows, root), root, cap, depth) && root in rows
    ensures root in depth && depth.Keys <= rows.Keys
  {
    hide Edges, Within;
    forall k | k in depth ensures k in rows {
      assert k in Reach(schema, rows, root, depth[k]);
      ReachIsCandidates(schema, rows, root, depth[k]);
    }
  }

  lemma LayerIsWithin<K>(g: Graph<K>, root: K, d: nat)
    ensures Layer(g, root, d) <= Within(g, root, d)
  {
  }

  /** A row changed by the cascade hangs from the root or from another row that was changed. */
  lemma ChangedRowsHang(schema: Schema, before: Table, after: Table, root: Key, cap: nat, user: Option<int>, since: int, until: int)
    requires root in before
    requires Deactivated(schema, before, after, Reach(schema, before, root, cap), user, since, until)
    ensures forall k :: k in after && k != root && after[k] != before[k] ==>
              exists p :: (p == root || (p in after && after[p] != before[p])) && HangsFrom(schema, before, p, k)
  {
    hide HangsFrom, Reach;
    ReachIsClosedBelow(schema, before, root, cap);
    forall k | k in after && k != root && after[k] != before[k]
      ensures exists p :: (p == root || (p in after && after[p] != before[p])) && HangsFrom(schema, before, p, k)
    {
      var p :| p in Reach(schema, before, root, cap - 1) && HangsFrom(schema, before, p, k);
      ReachIsCandidates(schema, before, root, cap - 1);
      ReachGrows(schema, before, root, cap);
      assert p == root || (before[p].isActive && !after[p].isActive);
    }
  }

  lemma ReachGrows(schema: Schema, rows: Table, root: Key, cap: nat)
    requires cap > 0
    ensures Reach(schema, rows, root, cap - 1) <= Reach(schema, rows, root, cap)
  {
    hide Edges;
    WithinGrows(Edges(schema, rows, root), root, cap - 1, cap);
  }

  // ---------------------------------------------------------------- what a delete leaves behind

  /** An active row hanging by a cascading foreign key from a row the delete deactivated. */
  ghost predicate Orphan(schema: Schema, rows: Table, taken: set<Key>, c: Key) {
    && c in rows && rows[c].isActive
    && exists p :: p in taken && CascadeChild(schema, rows, p, c)
  }

  lemma OrphansAreBeyondTheCap(schema: Schema, before: Table, after: Table, root: Key, cap: nat,
                               user: Option<int>, since: int, until: int, c: Key)
    requires root in before
    requires Deactivated(schema, before, after, Reach(schema, before, root, cap), user, since, until)
    ensures Orphan(schema, after, Reach(schema, before, root, cap), c) <==> c in AtDistance(schema, before, root, cap + 1)
  {
    hide CascadeChild;
    var g, taken := Edges(schema, before, root), Reach(schema, before, root, cap);
    WithinGrows(g, root, 0, cap);
    ReachIsCandidates(schema, before, root, cap);
    forall p ensures CascadeChild(schema, after, p, c) == CascadeChild(schema, before, p, c) {
      SameChildren(schema, before, after, p, c);
    }
    if Orphan(schema, after, taken, c) {
      var p :| p in taken && CascadeChild(schema, after, p, c);
      assert c !in taken && p in before && c in Next(g, p);
      WithinStep(g, root, cap, p, c);
    }
    if c in AtDistance(schema, before, root, cap + 1) {
      var p :| p in Within(g, root, cap) && c in Next(g, p);
      assert CascadeChild(schema, after, p, c);
    }
  }

  /**
     A cascade leaves no active child below the rows it took exactly when no row lies one step beyond the cap,
     and then it took everything reachable at any distance.
   */
  lemma NoOrphansIffNothingBeyondCap(schema: Schema, before: Table, after: Table, root: Key, cap: nat,
                                     user: Option<int>, since: int, until: int)
    requires root in before
    requires Deactivated(schema, before, after, Reach(schema, before, root, cap), user, since, until)
    ensures (forall c :: !Orphan(schema, after, Reach(schema, before, root, cap), c))
            <==> AtDistance(schema, before, root, cap + 1) == {}
    ensures AtDistance(schema, before, root, cap + 1) == {} ==>
              forall d: nat :: cap <= d ==> Reach(schema, before, root, d) == Reach(schema, before, root, cap)
  {
    hide Edges, Within, CascadeChild, Orphan;
    forall c
      ensures Orphan(schema, after, Reach(schema, before, root, cap), c) <==> c in AtDistance(schema, before, root, cap + 1)
    {
      OrphansAreBeyondTheCap(schema, before, after, root, cap, user, since, until, c);
    }
    if AtDistance(schema, before, root, cap + 1) != {} {
      var c :| c in AtDistance(schema, before, root, cap + 1);
      assert Orphan(schema, after, Reach(schema, before, root, cap), c);
    } else {
      forall d: nat | cap <= d ensures Reach(schema, before, root, d) == Reach(schema, before, root, cap) {
        LayersSaturate(Edges(schema, before, root), root, cap, d);
      }
    }
  }

  // ---------------------------------------------------------------- a chain longer than the cap

  const CHAINED := Schema(map["Node" := [Relation("Node", "parent", true)]], {"Node"}, {})

  function Link(i: int): Key {
    Key("Node", i)
  }

  /** `n + 1` active rows, each pointing at the one before it. */
  function Chain(n: nat): Table {
    map k | k in (set i | 0 <= i <= n :: Link(i)) ::
      Row(if 0 < k.pk then map["parent" := Link(k.pk - 1)] else map[], true, 0, None)
  }

  lemma ChainStep(n: nat, k: Key)
    ensures forall c :: c in Next(Edges(CHAINED, Chain(n), Link(0)), k) <==> k in Chain(n) && k.pk < n && c == Link(k.pk + 1)
  {
    var rows := Chain(n);
    assert CHAINED.RelatedObjects("Node") == [Relation("Node", "parent", true)];
    forall c
      ensures k in rows && c in rows && CascadeChild(CHAINED, rows, k, c) <==> k in rows && k.pk < n && c == Link(k.pk + 1)
    {
      if k in rows && k.pk < n && c == Link(k.pk + 1) {
        assert ChildVia(CHAINED, rows, 0, k, c);
      }
    }
  }

  lemma {:induction false} ChainReach(n: nat, d: nat)
    requires d <= n
    ensures forall k: Key :: k in Reach(CHAINED, Chain(n), Link(0), d) <==> 0 <= k.pk <= d && k == Link(k.pk)
  {
    hide Edges, Chain;
    if d != 0 {
      ChainReach(n, d - 1);
      ChainHas(n);
      forall k ensures forall c :: c in Next(Edges(CHAINED, Chain(n), Link(0)), k) <==> k in Chain(n) && k.pk < n && c == Link(k.pk + 1) {
        ChainStep(n, k);
      }
      forall k: Key | 0 <= k.pk <= d && k == Link(k.pk) ensures k in Reach(CHAINED, Chain(n), Link(0), d) {
        if k.pk == d {
          WithinStep(Edges(CHAINED, Chain(n), Link(0)), Link(0), d - 1, Link(d - 1), k);
        }
      }
    }
  }

  lemma ChainHas(n: nat)
    ensures forall k: Key :: k in Chain(n) <==> 0 <= k.pk <= n && k == Link(k.pk)
  {
  }

  lemma LastLinkIsBeyond(cap: nat)
    ensures Link(0) in Chain(cap + 1) && Link(cap + 1) in AtDistance(CHAINED, Chain(cap + 1), Link(0), cap + 1)
  {
    hide Chain, Edges, Within;
    ChainHas(cap + 1);
    ChainReach(cap + 1, cap);
    ChainReach(cap + 1, cap + 1);
  }

  /** For every cap there is a table of which a delete leaves an active CASCADE child: a chain one row longer than the cap reaches. */
  lemma CapLeavesAnActiveChild(cap: nat, after: Table, user: Option<int>, since: int, until: int)
    requires Deactivated(CHAINED, Chain(cap + 1), after, Reach(CHAINED, Chain(cap + 1), Link(0), cap), user, since, until)
    ensures Orphan(CHAINED, after, Reach(CHAINED, Chain(cap + 1), Link(0), cap), Link(cap + 1))
  {
    hide Deactivated, Orphan, Chain, Reach, AtDistance;
    LastLinkIsBeyond(cap);
    OrphansAreBeyondTheCap(CHAINED, Chain(cap + 1), after, Link(0), cap, user, since, until, Link(cap + 1));
  }
}
