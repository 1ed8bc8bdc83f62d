/** Rows joined by cascading foreign keys, seen as the graph a soft delete walks. */
module CascadeGraph {
  import opened Wrappers
  import opened BreadthFirst

  type ModelName = string

  datatype Key = Key(model: ModelName, pk: int)

  /** One entry of `_meta.related_objects`: the related model, its foreign key column, and whether the key is CASCADE. */
  datatype Relation = Relation(relatedModel: ModelName, field: string, cascades: bool)

  /** `softDeletable` are the models with an `is_active` field, `audited` those with an `updated_by` field. */
  datatype Schema = Schema(
    relations: map<ModelName, seq<Relation>>,
    softDeletable: set<ModelName>,
    audited: set<ModelName>)
  {
    function RelatedObjects(model: ModelName): seq<Relation> {
      if model in relations then relations[model] else []
    }

    predicate Followed(rel: Relation) {
      rel.cascades && rel.relatedModel in softDeletable
    }
  }

  /** A null foreign key is an absent entry of `foreignKeys`. */
  datatype Row = Row(foreignKeys: map<string, Key>, isActive: bool, updatedAt: int, updatedBy: Option<int>)

  type Table = map<Key, Row>

  predicate RefersTo(rows: Table, rel: Relation, parent: Key, child: Key) {
    && child in rows
    && child.model == rel.relatedModel
    && rel.field in rows[child].foreignKeys
    && rows[child].foreignKeys[rel.field] == parent
  }

  /** `child` points at `parent` through relation number `i` of the parent's model, and the cascade follows it. */
  predicate ChildVia(schema: Schema, rows: Table, i: nat, parent: Key, child: Key) {
    var rels := schema.RelatedObjects(parent.model);
    i < |rels| && schema.Followed(rels[i]) && RefersTo(rows, rels[i], parent, child)
  }

  ghost predicate CascadeChild(schema: Schema, rows: Table, parent: Key, child: Key) {
    exists i: nat :: ChildVia(schema, rows, i, parent, child)
  }

  /** A row the cascade may take: any active row other than the root. */
  predicate Candidate(rows: Table, root: Key, k: Key) {
    k in rows && k != root && rows[k].isActive
  }

  /** An edge leads from a row to each candidate that is one of its cascade children. */
  ghost function Edges(schema: Schema, rows: Table, root: Key): Graph<Key> {
    map p | p in rows :: set c | c in rows && Candidate(rows, root, c) && CascadeChild(schema, rows, p, c)
  }

  /** The rows at most `d` cascading steps from the root, over active rows. */
  ghost function Reach(schema: Schema, rows: Table, root: Key, d: nat): set<Key> {
    Within(Edges(schema, rows, root), root, d)
  }

  /** The rows whose shortest distance from the root is exactly `d`. */
  ghost function AtDistance(schema: Schema, rows: Table, root: Key, d: nat): set<Key> {
    Layer(Edges(schema, rows, root), root, d)
  }

  /**
   `child` is an active row whose model is soft-deletable, and one of its foreign keys, declared CASCADE towards the
   parent's model, points at `parent`.
   */
  ghost predicate HangsFrom(schema: Schema, rows: Table, parent: Key, child: Key) {
    && child in rows && rows[child].isActive && child.model in schema.softDeletable && parent.model in schema.relations
    && exists rel ::
         && rel in schema.relations[parent.model] && rel.cascades && rel.relatedModel == child.model
         && rel.field in rows[child].foreignKeys && rows[child].foreignKeys[rel.field] == parent
  }

  /** What the walk follows is exactly that. */
  lemma FollowsCascadesOnly(schema: Schema, rows: Table, root: Key, parent: Key, child: Key)
    requires parent in rows
    ensures child in Next(Edges(schema, rows, root), parent) <==> child != root && HangsFrom(schema, rows, parent, child)
  {
    var rels := schema.RelatedObjects(parent.model);
    if i: nat :| ChildVia(schema, rows, i, parent, child) {
      if Candidate(rows, root, child) {
        assert rels[i] in schema.relations[parent.model];
      }
    }
    if child != root && HangsFrom(schema, rows, parent, child) {
      var rel :| rel in schema.relations[parent.model] && rel.cascades && rel.relatedModel == child.model
                 && rel.field in rows[child].foreignKeys && rows[child].foreignKeys[rel.field] == parent;
      var i: nat :| i < |rels| && rels[i] == rel;
      assert ChildVia(schema, rows, i, parent, child);
    }
  }

  /** A chain of rows from an existing one, each hanging from the one before it and none of them the start again. */
  ghost predicate CascadeChain(schema: Schema, rows: Table, chain: seq<Key>) {
    && 0 < |chain|
    && forall i {:trigger chain[i]} :: 0 < i < |chain| ==>
         chain[i] != chain[0] && HangsFrom(schema, rows, chain[i - 1], chain[i])
  }

  lemma ChainIsPath(schema: Schema, rows: Table, root: Key, chain: seq<Key>)
    requires root in rows
    ensures CascadeChain(schema, rows, chain) && chain[0] == root
            <==> Path(Edges(schema, rows, root), chain) && chain[0] == root
  {
    var g := Edges(schema, rows, root);
    if Path(g, chain) && chain[0] == root {
      forall i {:trigger chain[i]} | 0 < i < |chain|
        ensures chain[i] != chain[0] && HangsFrom(schema, rows, chain[i - 1], chain[i])
      {
        assert chain[i] in Next(g, chain[i - 1]);
        FollowsCascadesOnly(schema, rows, root, chain[i - 1], chain[i]);
      }
    }
    if CascadeChain(schema, rows, chain) && chain[0] == root {
      forall i {:trigger chain[i]} | 0 < i < |chain| ensures chain[i] in Next(g, chain[i - 1]) {
        assert i == 1 || HangsFrom(schema, rows, chain[i - 2], chain[i - 1]);
        assert chain[i - 1] in rows;
        FollowsCascadesOnly(schema, rows, root, chain[i - 1], chain[i]);
      }
    }
  }

  /** `Reach` is exactly: being the end of a chain of at most `d` cascading foreign keys over active rows. */
  lemma ReachIsByChains(schema: Schema, rows: Table, root: Key, d: nat, k: Key)
    requires root in rows
    ensures k in Reach(schema, rows, root, d) <==>
            exists chain :: CascadeChain(schema, rows, chain) && chain[0] == root && chain[|chain| - 1] == k && |chain| <= d + 1
  {
    var g := Edges(schema, rows, root);
    hide Edges, HangsFrom;
    WithinIsBoundedReachability(g, root, d, k);
    if k in Reach(schema, rows, root, d) {
      var chain :| Path(g, chain) && chain[0] == root && chain[|chain| - 1] == k && |chain| <= d + 1;
      ChainIsPath(schema, rows, root, chain);
    }
    if chain :| CascadeChain(schema, rows, chain) && chain[0] == root && chain[|chain| - 1] == k && |chain| <= d + 1 {
      ChainIsPath(schema, rows, root, chain);
    }
  }

  /** Every row reached but the root hangs from a row reached before it; and what hangs from a row nearer than `d` is reached. */
  lemma ReachIsClosedBelow(schema: Schema, rows: Table, root: Key, d: nat)
    requires root in rows
    ensures root in Reach(schema, rows, root, d)
    ensures forall k :: k in Reach(schema, rows, root, d) && k != root ==>
              d > 0 && exists p :: p in Reach(schema, rows, root, d - 1) && HangsFrom(schema, rows, p, k)
    ensures d > 0 ==> forall p, k :: p in Reach(schema, rows, root, d - 1) && k != root && HangsFrom(schema, rows, p, k) ==>
              k in Reach(schema, rows, root, d)
    decreases d
  {
    hide Edges, HangsFrom;
    var g := Edges(schema, rows, root);
    ReachIsRows(schema, rows, root, d);
    if d > 0 {
      ReachIsRows(schema, rows, root, d - 1);
      ReachIsClosedBelow(schema, rows, root, d - 1);
      forall p, k | p in Within(g, root, d - 1) ensures k in Next(g, p) <==> k != root && HangsFrom(schema, rows, p, k) {
        FollowsCascadesOnly(schema, rows, root, p, k);
      }
      forall k | k in Reach(schema, rows, root, d) && k != root
        ensures exists p :: p in Reach(schema, rows, root, d - 1) && HangsFrom(schema, rows, p, k)
      {
        if k in Within(g, root, d - 1) {
          var p :| p in Reach(schema, rows, root, d - 2) && HangsFrom(schema, rows, p, k);
          WithinGrows(g, root, d - 2, d - 1);
        }
      }
    }
  }

  lemma ReachIsRows(schema: Schema, rows: Table, root: Key, d: nat)
    requires root in rows
    ensures Reach(schema, rows, root, d) <= rows.Keys && root in Reach(schema, rows, root, d)
  {
    hide Edges;
    ReachIsCandidates(schema, rows, root, d);
    WithinGrows(Edges(schema, rows, root), root, 0, d);
  }

  /** Where no foreign key cascades, only the root is reached. */
  lemma NothingCascades(schema: Schema, rows: Table, root: Key, d: nat)
    requires root in rows
    requires forall model, rel :: model in schema.relations && rel in schema.relations[model] ==> !rel.cascades
    ensures Reach(schema, rows, root, d) == {root}
  {
    assert forall p, k :: !HangsFrom(schema, rows, p, k);
    hide HangsFrom, Edges, Within;
    ReachIsClosedBelow(schema, rows, root, d);
  }

  lemma ReachIsCandidates(schema: Schema, rows: Table, root: Key, d: nat)
    ensures forall k :: k in Reach(schema, rows, root, d) && k != root ==> Candidate(rows, root, k)
  {
    var g := Edges(schema, rows, root);
    forall k | k in Within(g, root, d) && k != root ensures Candidate(rows, root, k) {
      WithinIsEntered(g, root, d, k);
    }
  }

  /** The graph depends only on the foreign keys and on which rows besides the root are active. */
  lemma SameEdges(schema: Schema, a: Table, b: Table, root: Key)
    requires a.Keys == b.Keys
    requires forall k :: k in a ==> a[k].foreignKeys == b[k].foreignKeys
    requires forall k :: k in a && k != root ==> a[k].isActive == b[k].isActive
    ensures Edges(schema, a, root) == Edges(schema, b, root)
  {
    forall p, c ensures CascadeChild(schema, a, p, c) == CascadeChild(schema, b, p, c) {
      SameChildren(schema, a, b, p, c);
    }
    forall p | p in a ensures Edges(schema, a, root)[p] == Edges(schema, b, root)[p] {}
  }

  lemma SameChildren(schema: Schema, a: Table, b: Table, p: Key, c: Key)
    requires a.Keys == b.Keys
    requires forall k :: k in a ==> a[k].foreignKeys == b[k].foreignKeys
    ensures CascadeChild(schema, a, p, c) == CascadeChild(schema, b, p, c)
  {
    if i: nat :| ChildVia(schema, a, i, p, c) { assert ChildVia(schema, b, i, p, c); }
    if i: nat :| ChildVia(schema, b, i, p, c) { assert ChildVia(schema, a, i, p, c); }
  }
}
