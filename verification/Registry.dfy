/**
 Schema registration: content-derived identity, versioned parents and append-only
 predecessors.
 */
module Registry {
  import opened Base
  import opened Forest
  import opened Ownership
  import opened SchemaText

  const MAX_SCHEMA_LINEAGE_DEPTH := 32
  const MAX_SCHEMA_HISTORY_DEPTH := 64

  datatype SchemaRecord = SchemaRecord(schema: string, resolver: Address, revocable: bool, parent: Option<Uid>)

  datatype Lineage = Lineage(parent: Option<Uid>, root: Uid, depth: nat, ancestors: seq<Uid>)

  type Records = map<Uid, SchemaRecord>

  function Parents(records: Records): Links {
    map u | u in records && records[u].parent.Some? :: records[u].parent.value
  }

  /** `lineage_root`: the root and its distance, whatever the stored links are;
      the limit is reported exactly when there are more links than it allows. */
  method LineageRoot(records: Records, uid: Uid) returns (r: Result<(Uid, nat), Error>)
    ensures Rooted(Parents(records), uid, r)
  {
    var current := uid;
    var hops: nat := 0;
    while hops <= MAX_SCHEMA_LINEAGE_DEPTH
      invariant hops <= MAX_SCHEMA_LINEAGE_DEPTH + 1
      invariant Up(Parents(records), uid, hops) == Some(current)
    {
      if current in records && records[current].parent.Some? {
        current := records[current].parent.value;
        hops := hops + 1;
      } else {
        return Ok((current, hops));
      }
    }
    return Err(LimitExceeded);
  }

  ghost predicate Rooted(links: Links, uid: Uid, r: Result<(Uid, nat), Error>) {
    match r
    case Ok((root, hops)) => hops <= MAX_SCHEMA_LINEAGE_DEPTH && Up(links, uid, hops) == Some(root) && root !in links
    case Err(e) => e == LimitExceeded && Up(links, uid, MAX_SCHEMA_LINEAGE_DEPTH + 1).Some?
  }

  /** On registered links the walk succeeds, and counts the chain. */
  lemma RootDepth(g: Graph, uid: Uid, r: Result<(Uid, nat), Error>)
    requires IsForest(g) && g.bound == MAX_SCHEMA_LINEAGE_DEPTH && uid in g.nodes && Rooted(g.links, uid, r)
    ensures r.Ok? && r.value.1 + 1 == |Chain(g, uid)|
  {
    hide Up;
    ChainShape(g, uid);
    UpIsChain(g, uid, MAX_SCHEMA_LINEAGE_DEPTH + 1);
    if r.Ok? {
      UpIsChain(g, uid, r.value.1);
    }
  }

  /** `get_schema_lineage`, on links that lead to a root within the limit: every
      ancestor, in order. */
  method WalkParents(records: Records, uid: Uid, ghost c: seq<Uid>) returns (r: Result<Lineage, Error>)
    requires uid in records ==> Follows(Parents(records), uid, c) && |c| <= MAX_SCHEMA_LINEAGE_DEPTH + 1
    ensures r == if uid in records then Ok(Lineage(records[uid].parent, c[|c| - 1], |c| - 1, c[1..]))
            else Err(SchemaNotFound)
  {
    if uid !in records {
      return Err(SchemaNotFound);
    }
    var ancestors, root, next := [], uid, records[uid].parent;
    while next.Some?
      invariant |ancestors| < |c| && ancestors == c[1..|ancestors| + 1]
      invariant root == c[|ancestors|] && next == Get(Parents(records), root)
      decreases |c| - |ancestors|
    {
      if |ancestors| >= MAX_SCHEMA_LINEAGE_DEPTH {
        return Err(LimitExceeded);
      }
      ancestors := ancestors + [next.value];
      root := next.value;
      next := if root in records then records[root].parent else None;
    }
    assert ancestors == c[1..];
    return Ok(Lineage(records[uid].parent, root, |ancestors|, ancestors));
  }

  /** `schema_history`, on links between records that lead to a first version
      within the limit: all versions, newest first. */
  method WalkPredecessors(records: Records, predecessors: Links, uid: Uid, ghost c: seq<Uid>)
    returns (r: Result<seq<Uid>, Error>)
    requires uid in records ==> Follows(predecessors, uid, c) && |c| <= MAX_SCHEMA_HISTORY_DEPTH
    requires uid in records ==> forall u :: u in c ==> u in records
    ensures r == if uid in records then Ok(c) else Err(SchemaNotFound)
  {
    if uid !in records {
      return Err(SchemaNotFound);
    }
    var history, current := [], uid;
    while true
      invariant |history| < |c| && history == c[..|history|] && current == c[|history|]
      decreases |c| - |history|
    {
      if |history| >= MAX_SCHEMA_HISTORY_DEPTH {
        return Err(InvalidSchemaDefinition);
      }
      if current !in records {
        return Err(SchemaNotFound);
      }
      history := history + [current];
      if current !in predecessors {
        assert history == c;
        return Ok(history);
      }
      current := predecessors[current];
    }
  }

  ghost predicate Appended(records: Records, predecessors: Links) {
    forall u :: u in predecessors ==>
      u in records && predecessors[u] in records && IsAppendOnly(records[predecessors[u]].schema, records[u].schema)
  }

  /** The fields of every earlier version are a proper leading segment of the
      fields of every later one. */
  lemma {:induction false} FieldsNest(records: Records, g: Graph, uid: Uid, i: nat, j: nat)
    requires IsForest(g) && g.nodes == records.Keys && Appended(records, g.links)
    requires uid in records && i < j < |Chain(g, uid)|
    ensures Chain(g, uid)[i] in records && Chain(g, uid)[j] in records
    ensures Fields(records[Chain(g, uid)[j]].schema) < Fields(records[Chain(g, uid)[i]].schema)
    decreases j
  {
    ChainShape(g, uid);
    var c := Chain(g, uid);
    AppendOnlyExact(records[c[j]].schema, records[c[j - 1]].schema);
    if i < j - 1 {
      FieldsNest(records, g, uid, i, j - 1);
    }
  }

  type SchemaHash = (string, Address, bool) -> Uid

  function NameOf(hash: SchemaHash, rec: SchemaRecord): Uid {
    hash(rec.schema, rec.resolver, rec.revocable)
  }

  /** The stored schemas and predecessor links. */
  datatype Catalog = Catalog(records: Records, predecessors: Links)

  function Add(c: Catalog, uid: Uid, rec: SchemaRecord, before: Option<Uid>): Catalog {
    Catalog(c.records[uid := rec], Linked(c.predecessors, uid, before))
  }

  ghost predicate ParentsOk(records: Records, p: Graph) {
    IsForest(p) && p.nodes == records.Keys && p.links == Parents(records) && p.bound == MAX_SCHEMA_LINEAGE_DEPTH
  }

  /** A chain of parents is what the records say. */
  lemma LineIsStored(records: Records, p: Graph, uid: Uid, line: seq<Uid>)
    requires ParentsOk(records, p) && uid in records && line == Chain(p, uid)
    ensures 0 < |line| <= 33 && Distinct(line)
    ensures forall i :: 0 <= i < |line| ==> line[i] in records
    ensures records[line[|line| - 1]].parent == None
    ensures forall i :: 0 <= i < |line| - 1 ==> records[line[i]].parent == Some(line[i + 1])
  {
    ChainShape(p, uid);
  }

  ghost predicate HistoryOk(c: Catalog, h: Graph) {
    && IsForest(h) && h.nodes == c.records.Keys && h.links == c.predecessors && h.bound == MAX_SCHEMA_HISTORY_DEPTH - 1
    && Appended(c.records, c.predecessors)
  }

  /** A chain of versions is what the predecessor links say. */
  lemma VersionsAreStored(c: Catalog, h: Graph, uid: Uid, line: seq<Uid>)
    requires HistoryOk(c, h) && uid in c.records && line == Chain(h, uid)
    ensures 0 < |line| <= 64 && line[0] == uid && Distinct(line)
    ensures line[|line| - 1] !in c.predecessors
    ensures forall i :: 0 <= i < |line| - 1 ==> line[i] in c.predecessors && c.predecessors[line[i]] == line[i + 1]
  {
    hide Appended;
    ChainShape(h, uid);
  }

  ghost predicate Named(hash: SchemaHash, records: Records) {
    forall u :: u in records ==> u == NameOf(hash, records[u])
  }

  /** Parents form a forest of depth at most 32, predecessors one of at most 64
      versions that only append fields, and every schema is filed under its
      content hash. */
  ghost predicate Sound(hash: SchemaHash, c: Catalog, p: Graph, h: Graph) {
    ParentsOk(c.records, p) && HistoryOk(c, h) && Named(hash, c.records)
  }

  lemma ParentsLinked(records: Records, uid: Uid, rec: SchemaRecord)
    requires uid !in records
    ensures Parents(records[uid := rec]) == Linked(Parents(records), uid, rec.parent)
  {}

  lemma ParentsGrow(records: Records, p: Graph, uid: Uid, rec: SchemaRecord)
    requires ParentsOk(records, p) && uid !in records && Room(p, rec.parent)
    ensures ParentsOk(records[uid := rec], Grown(p, uid, rec.parent))
  {
    hide IsForest, Parents, Linked, Room;
    GrownForest(p, uid, rec.parent);
    ParentsLinked(records, uid, rec);
  }

  ghost predicate Extends(records: Records, before: Option<Uid>, rec: SchemaRecord) {
    before.Some? ==> before.value in records && IsAppendOnly(records[before.value].schema, rec.schema)
  }

  lemma AppendedGrows(c: Catalog, uid: Uid, rec: SchemaRecord, before: Option<Uid>)
    requires Appended(c.records, c.predecessors) && uid !in c.records && Extends(c.records, before, rec)
    ensures Appended(Add(c, uid, rec, before).records, Add(c, uid, rec, before).predecessors)
  {
    hide IsAppendOnly;
  }

  lemma HistoryGrows(c: Catalog, h: Graph, uid: Uid, rec: SchemaRecord, before: Option<Uid>)
    requires HistoryOk(c, h) && uid !in c.records && Room(h, before) && Extends(c.records, before, rec)
    ensures HistoryOk(Add(c, uid, rec, before), Grown(h, uid, before))
  {
    hide IsForest, Appended, Extends, Linked, Room;
    AppendedGrows(c, uid, rec, before);
    GrownForest(h, uid, before);
  }

  /** A fresh schema below a parent, and after a predecessor it extends, that
      both leave room for it. */
  lemma AddKeepsSound(hash: SchemaHash, c: Catalog, p: Graph, h: Graph, uid: Uid, rec: SchemaRecord,
      before: Option<Uid>)
    requires Sound(hash, c, p, h) && uid == NameOf(hash, rec) && uid !in c.records
    requires Room(p, rec.parent) && Room(h, before) && Extends(c.records, before, rec)
    ensures Sound(hash, Add(c, uid, rec, before), Grown(p, uid, rec.parent), Grown(h, uid, before))
  {
    hide ParentsOk, HistoryOk, Extends, Linked, Room, Grown;
    ParentsGrow(c.records, p, uid, rec);
    HistoryGrows(c, h, uid, rec, before);
  }

  /** Ownership calls neither add nor remove schemas. */
  lemma PerformedKeepsSchemas(admin: Address, b: Book, c: Book, uid: Uid, s: Step, e: Option<Error>)
    requires Performed(admin, b, c, uid, s, e)
    ensures c.creators.Keys == b.creators.Keys
  {
    hide Apply;
    forall u ensures u in c.creators <==> u in b.creators {
      assert u != uid ==> c == b || TitleIn(c, u) == TitleIn(b, u);
    }
  }

  predicate ActsFor(b: Book, admin: Address, uid: Uid, who: Address) {
    TitleIn(b, uid).Some? && IsOwner(TitleIn(b, uid).value, admin, who)
  }

  function Creator(b: Book, uid: Uid): Address {
    if uid in b.creators then b.creators[uid] else Address(0)
  }

  class SchemaRegistry {
    const owners: Owners
    const hash: SchemaHash
    const lexical: string -> Option<Error>
    const syntax: string -> Option<Error>
    var catalog: Catalog
    ghost var parents: Graph
    ghost var history: Graph

    ghost predicate Valid()
      reads this, owners
    {
      && owners.Valid() && owners.book.creators.Keys == catalog.records.Keys
      && Sound(hash, catalog, parents, history)
    }

    constructor (admin: Address, hash: SchemaHash, lexical: string -> Option<Error>, syntax: string -> Option<Error>)
      ensures Valid() && catalog == Catalog(map[], map[]) && fresh(owners)
    {
      owners := new Owners(admin);
      this.hash, this.lexical, this.syntax := hash, lexical, syntax;
      catalog := Catalog(map[], map[]);
      parents := Graph({}, map[], map[], MAX_SCHEMA_LINEAGE_DEPTH);
      history := Graph({}, map[], map[], MAX_SCHEMA_HISTORY_DEPTH - 1);
    }

    /** `get_schema_lineage`: on a registry no limit is ever hit. */
    method GetSchemaLineage(uid: Uid) returns (r: Result<Lineage, Error>)
      requires Valid()
      ensures uid !in catalog.records ==> r == Err(SchemaNotFound)
      ensures uid in catalog.records ==>
        && r.Ok? && r.value.parent == catalog.records[uid].parent && [uid] + r.value.ancestors == Chain(parents, uid)
        && r.value.depth == |r.value.ancestors| && r.value.root == Chain(parents, uid)[r.value.depth]
      ensures uid in catalog.records ==>
        var line := [uid] + r.value.ancestors;
        && |line| <= 33 && Distinct(line)
        && (forall i :: 0 <= i < |line| ==> line[i] in catalog.records)
        && catalog.records[r.value.root].parent == None && line[|line| - 1] == r.value.root
        && forall i :: 0 <= i < |line| - 1 ==> catalog.records[line[i]].parent == Some(line[i + 1])
    {
      ghost var c := [];
      if uid in catalog.records {
        c := Chain(parents, uid);
        ChainShape(parents, uid);
        LineIsStored(catalog.records, parents, uid, c);
      }
      hide Sound, IsForest, Recorded, Tidy;
      r := WalkParents(catalog.records, uid, c);
      if uid in catalog.records { assert [uid] + r.value.ancestors == c; }
    }

    /** `get_schema_history`: on a registry neither limit nor missing record is
        ever hit. */
    method GetSchemaHistory(uid: Uid) returns (r: Result<seq<Uid>, Error>)
      requires Valid()
      ensures r == if uid in catalog.records then Ok(Chain(history, uid)) else Err(SchemaNotFound)
      ensures uid in catalog.records ==>
        && 0 < |r.value| <= 64 && r.value[0] == uid && Distinct(r.value)
        && r.value[|r.value| - 1] !in catalog.predecessors
        && forall i :: 0 <= i < |r.value| - 1 ==>
             r.value[i] in catalog.predecessors && catalog.predecessors[r.value[i]] == r.value[i + 1]
    {
      ghost var c := [];
      if uid in catalog.records {
        c := Chain(history, uid);
        ChainShape(history, uid);
        VersionsAreStored(catalog, history, uid, c);
      }
      hide Sound, IsForest, Recorded, Tidy;
      r := WalkPredecessors(catalog.records, catalog.predecessors, uid, c);
    }

    ghost function ParentError(owner: Address, parent: Uid): Option<Error>
      reads this, owners
    {
      if parent !in catalog.records then Some(InvalidSchema)
      else if !ActsFor(owners.book, owners.admin, parent, owner) then Some(Unauthorized)
      else if !Room(parents, Some(parent)) then Some(LimitExceeded)
      else None
    }

    /** A parent must be stored, be one the new owner acts for -- as administrator,
        creator or listed owner -- and be less than 32 links from its root. */
    lemma ParentReports(owner: Address, parent: Uid)
      requires Valid()
      ensures IsForest(parents) && parents.nodes == catalog.records.Keys == owners.book.creators.Keys
      ensures ParentError(owner, parent) ==
        if parent !in catalog.records then Some(InvalidSchema)
        else
          Or(When(owner != owners.admin && owner != owners.book.creators[parent]
                  && !(parent in owners.book.ownerSets && owner in owners.book.ownerSets[parent].owners), Unauthorized),
             When(|Chain(parents, parent)| > 32, LimitExceeded))
    {
      hide Sound, IsForest, Recorded, Tidy, Chain, Room;
      Forests();
      if parent in catalog.records { RoomIsShortChain(parents, parent); }
    }

    /** `validate_parent_schema` */
    method ValidateParent(owner: Address, parent: Uid) returns (e: Option<Error>)
      requires Valid()
      ensures e == ParentError(owner, parent)
    {
      if parent !in catalog.records { return Some(InvalidSchema); }
      var allowed := owners.ActsFor(parent, owner);
      if !allowed { return Some(Unauthorized); }
      var found := LineageRoot(catalog.records, parent);
      RoomIsShortChain(parents, parent);
      RootDepth(parents, parent, found);
      if found.Err? || found.value.1 >= MAX_SCHEMA_LINEAGE_DEPTH { return Some(LimitExceeded); }
      return None;
    }

    lemma Forests()
      requires Valid()
      ensures IsForest(parents) && parents.nodes == catalog.records.Keys == owners.book.creators.Keys
      ensures IsForest(history) && history.nodes == catalog.records.Keys && parents.bound == 32 && history.bound == 63
    {}

    /** Why a registration is refused, in the order the checks are made. */
    ghost function Refusal(owner: Address, rec: SchemaRecord): Option<Error>
      reads this, owners
    {
      if lexical(rec.schema).Some? then lexical(rec.schema)
      else if syntax(rec.schema).Some? then syntax(rec.schema)
      else if rec.parent.Some? && ParentError(owner, rec.parent.value).Some? then ParentError(owner, rec.parent.value)
      else if NameOf(hash, rec) in catalog.records then Some(SchemaAlreadyExists)
      else None
    }

    /** What it takes to register. */
    lemma Admits(owner: Address, rec: SchemaRecord)
      requires Valid()
      ensures IsForest(parents) && parents.nodes == catalog.records.Keys == owners.book.creators.Keys
      ensures rec.parent.None? ==>
                Refusal(owner, rec) ==
                Or(lexical(rec.schema), Or(syntax(rec.schema),
                  When(hash(rec.schema, rec.resolver, rec.revocable) in catalog.records, SchemaAlreadyExists)))
      ensures Refusal(owner, rec).None? ==>
                && lexical(rec.schema).None? && syntax(rec.schema).None?
                && hash(rec.schema, rec.resolver, rec.revocable) !in catalog.records
      ensures Refusal(owner, rec).None? && rec.parent.Some? ==>
                var parent := rec.parent.value;
                && parent in catalog.records && |Chain(parents, parent)| <= 32
                && (owner == owners.admin || owner == owners.book.creators[parent]
                    || (parent in owners.book.ownerSets && owner in owners.book.ownerSets[parent].owners))
    {
      hide Sound, IsForest, Recorded, Tidy, Chain, ParentError;
      Forests();
      if rec.parent.Some? { ParentReports(owner, rec.parent.value); }
    }

    lemma RoomFor(owner: Address, rec: SchemaRecord)
      requires Valid() && Refusal(owner, rec).None?
      ensures Room(parents, rec.parent)
    {
      hide Sound, Recorded, Tidy, ActsFor;
    }

    method CheckRegistration(owner: Address, rec: SchemaRecord) returns (e: Option<Error>)
      requires Valid()
      ensures e == Refusal(owner, rec)
    {
      hide Sound, IsForest, Recorded, Tidy, ParentError;
      e := lexical(rec.schema);
      if e.Some? { return; }
      e := syntax(rec.schema);
      if e.Some? { return; }
      if rec.parent.Some? {
        e := ValidateParent(owner, rec.parent.value);
        if e.Some? { return; }
      }
      if hash(rec.schema, rec.resolver, rec.revocable) in catalog.records { return Some(SchemaAlreadyExists); }
    }

    method Enroll(uid: Uid, owner: Address, rec: SchemaRecord)
      requires Valid() && uid == NameOf(hash, rec) && uid !in catalog.records && Room(parents, rec.parent)
      modifies this, owners
      ensures Valid() && catalog == Add(old(catalog), uid, rec, None)
      ensures parents == Grown(old(parents), uid, rec.parent) && history == Grown(old(history), uid, None)
      ensures TitleIn(owners.book, uid) == Some(Registered(owner)) && Apart(old(owners.book), owners.book, uid)
      ensures owners.book == old(owners.book).(creators := old(owners.book).creators[uid := owner])
    {
      hide Sound, Grown, Recorded, Tidy, TitleIn, Apart;
      AddKeepsSound(hash, catalog, parents, history, uid, rec, None);
      owners.Register(uid, owner);
      catalog := Add(catalog, uid, rec, None);
      parents, history := Grown(parents, uid, rec.parent), Grown(history, uid, None);
    }

    /** `register_internal` */
    method RegisterInternal(owner: Address, schema: string, resolver: Address, revocable: bool, parent: Option<Uid>)
      returns (r: Result<Uid, Error>)
      requires Valid()
      modifies this, owners
      ensures Valid()
      ensures var rec := SchemaRecord(schema, resolver, revocable, parent);
              match old(Refusal(owner, rec))
              case Some(e) => r == Err(e) && unchanged(this) && unchanged(owners)
              case None =>
                && r == Ok(NameOf(hash, rec)) && catalog == Add(old(catalog), r.value, rec, None)
                && parents == Grown(old(parents), r.value, parent) && history == Grown(old(history), r.value, None)
                && TitleIn(owners.book, r.value) == Some(Registered(owner))
                  && Apart(old(owners.book), owners.book, r.value)
      ensures r.Ok? ==>
                && r.value == hash(schema, resolver, revocable) && r.value !in old(catalog).records
                && catalog.records ==
                   old(catalog).records[r.value := SchemaRecord(schema, resolver, revocable, parent)]
                && owners.book == old(owners.book).(creators := old(owners.book).creators[r.value := owner])
      ensures r.Ok? && parent.Some? ==>
                && parent.value in old(catalog).records && parent.value in old(owners.book).creators
                && (owner == owners.admin || owner == old(owners.book).creators[parent.value]
                    || (parent.value in old(owners.book).ownerSets
                        && owner in old(owners.book).ownerSets[parent.value].owners))
                && IsForest(old(parents)) && parent.value in old(parents).nodes
                && |Chain(old(parents), parent.value)| <= 32
      ensures parent.None? ==>
                ErrorOf(r) == Or(lexical(schema), Or(syntax(schema),
                  When(hash(schema, resolver, revocable) in old(catalog).records, SchemaAlreadyExists)))
    {
      hide Sound, Grown, Recorded, Tidy, TitleIn, Apart, IsForest, Chain, Refusal, Room;
      var rec := SchemaRecord(schema, resolver, revocable, parent);
      Admits(owner, rec);
      if Refusal(owner, rec).None? { RoomFor(owner, rec); }
      var e := CheckRegistration(owner, rec);
      if e.Some? { return Err(e.value); }
      Enroll(NameOf(hash, rec), owner, rec);
      return Ok(NameOf(hash, rec));
    }

    /** `register` and `register_with_parent`: the owner must have authorised. */
    method RegisterSchema(owner: Address, schema: string, resolver: Address, revocable: bool, parent: Option<Uid>,
                          auth: set<Address>)
      returns (r: Result<Uid, Error>)
      requires Valid()
      modifies this, owners
      ensures Valid()
      ensures var rec := SchemaRecord(schema, resolver, revocable, parent);
              match if owner !in auth then Some(Unauthorized) else old(Refusal(owner, rec))
              case Some(e) => r == Err(e) && unchanged(this) && unchanged(owners)
              case None =>
                && r == Ok(NameOf(hash, rec)) && catalog == Add(old(catalog), r.value, rec, None)
                && parents == Grown(old(parents), r.value, parent) && history == Grown(old(history), r.value, None)
                && TitleIn(owners.book, r.value) == Some(Registered(owner))
                  && Apart(old(owners.book), owners.book, r.value)
      ensures r.Ok? ==>
                && r.value == hash(schema, resolver, revocable) && r.value !in old(catalog).records
                && catalog.records ==
                   old(catalog).records[r.value := SchemaRecord(schema, resolver, revocable, parent)]
                && owners.book == old(owners.book).(creators := old(owners.book).creators[r.value := owner])
      ensures r.Ok? && parent.Some? ==>
                && parent.value in old(catalog).records && parent.value in old(owners.book).creators
                && (owner == owners.admin || owner == old(owners.book).creators[parent.value]
                    || (parent.value in old(owners.book).ownerSets
                        && owner in old(owners.book).ownerSets[parent.value].owners))
                && IsForest(old(parents)) && parent.value in old(parents).nodes
                && |Chain(old(parents), parent.value)| <= 32
      ensures owner !in auth ==> r == Err(Unauthorized)
    {
      hide Sound, Grown, Recorded, Tidy, TitleIn, Apart, Refusal, NameOf, IsForest, Chain;
      if owner !in auth { return Err(Unauthorized); }
      r := RegisterInternal(owner, schema, resolver, revocable, parent);
    }

    /** Why a derivative is refused before it is registered. Both the owner of the
        predecessor and the new owner must have authorised. */
    ghost function DerivativeError(schema: string, before: Uid, owner: Address, auth: set<Address>): Option<Error>
      reads this, owners
    {
      if syntax(schema).Some? then syntax(schema)
      else if before !in catalog.records then Some(SchemaNotFound)
      else if syntax(catalog.records[before].schema).Some? then syntax(catalog.records[before].schema)
      else if !IsAppendOnly(catalog.records[before].schema, schema) then Some(InvalidSchemaDefinition)
      else if Creator(owners.book, before) !in auth || owner !in auth then Some(Unauthorized)
      else if !Room(history, Some(before)) then Some(InvalidSchemaDefinition)
      else None
    }

    /** The same, said of fields and chains. */
    lemma DerivativeReports(schema: string, before: Uid, owner: Address, auth: set<Address>)
      requires Valid()
      ensures IsForest(history) && history.nodes == catalog.records.Keys == owners.book.creators.Keys
      ensures DerivativeError(schema, before, owner, auth) ==
        Or(syntax(schema),
           if before !in catalog.records then Some(SchemaNotFound)
           else
             var earlier := catalog.records[before].schema;
             Or(syntax(earlier),
             Or(When(!(|schema| <= 1024 && Fields(earlier) < Fields(schema)), InvalidSchemaDefinition),
             Or(When(owners.book.creators[before] !in auth || owner !in auth, Unauthorized),
                When(|Chain(history, before)| >= 64, InvalidSchemaDefinition)))))
    {
      hide Sound, IsForest, Recorded, Tidy, IsAppendOnly, Chain, Room, Fields;
      Forests();
      if before in catalog.records {
        AppendOnlyExact(catalog.records[before].schema, schema);
        RoomIsShortChain(history, before);
      }
    }

    method CheckDerivative(schema: string, before: Uid, owner: Address, auth: set<Address>) returns (e: Option<Error>)
      requires Valid()
      ensures e == DerivativeError(schema, before, owner, auth)
    {
      hide Sound, IsForest, Recorded, Tidy, IsAppendOnly, Chain, Room;
      e := syntax(schema);
      if e.Some? { return; }
      if before !in catalog.records { return Some(SchemaNotFound); }
      e := syntax(catalog.records[before].schema);
      if e.Some? { return; }
      if !IsAppendOnly(catalog.records[before].schema, schema) { return Some(InvalidSchemaDefinition); }
      if owners.book.creators[before] !in auth || owner !in auth { return Some(Unauthorized); }
      var full := HistoryFull(before);
      if full { return Some(InvalidSchemaDefinition); }
    }

    method HistoryFull(before: Uid) returns (full: bool)
      requires Valid() && before in catalog.records
      ensures full <==> !Room(history, Some(before))
    {
      var versions := GetSchemaHistory(before);
      RoomIsShortChain(history, before);
      full := |versions.value| >= MAX_SCHEMA_HISTORY_DEPTH;
    }

    ghost function DerivativeRefusal(owner: Address, rec: SchemaRecord, before: Uid, auth: set<Address>): Option<Error>
      reads this, owners
    {
      match DerivativeError(rec.schema, before, owner, auth)
      case Some(e) => Some(e)
      case None => Refusal(owner, rec)
    }

    /** `register_with_predecessor` */
    method RegisterWithPredecessor(owner: Address, schema: string, resolver: Address, revocable: bool, before: Uid,
                                   auth: set<Address>)
      returns (r: Result<Uid, Error>)
      requires Valid()
      modifies this, owners
      ensures Valid()
      ensures var rec := SchemaRecord(schema, resolver, revocable, None);
              match old(DerivativeRefusal(owner, rec, before, auth))
              case Some(e) => r == Err(e) && unchanged(this) && unchanged(owners)
              case None =>
                && r == Ok(NameOf(hash, rec)) && catalog == Add(old(catalog), r.value, rec, Some(before))
                && parents == Grown(old(parents), r.value, None)
                  && history == Grown(old(history), r.value, Some(before))
                && TitleIn(owners.book, r.value) == Some(Registered(owner))
                  && Apart(old(owners.book), owners.book, r.value)
      ensures r.Ok? ==>
                && r.value == hash(schema, resolver, revocable) && r.value !in old(catalog).records
                && catalog.records ==
                   old(catalog).records[r.value := SchemaRecord(schema, resolver, revocable, None)]
                && owners.book == old(owners.book).(creators := old(owners.book).creators[r.value := owner])
                && catalog.predecessors == old(catalog).predecessors[r.value := before]
                && before in old(catalog).records && before in old(owners.book).creators
                && |schema| <= 1024 && Fields(old(catalog).records[before].schema) < Fields(schema)
                && old(owners.book).creators[before] in auth && owner in auth
    {
      hide Sound, Grown, Recorded, Tidy, TitleIn, Apart, Chain, IsAppendOnly, ParentError, Fields, IsForest;
      DerivativeReports(schema, before, owner, auth);
      var e := CheckDerivative(schema, before, owner, auth);
      if e.Some? { return Err(e.value); }
      ghost var rec := SchemaRecord(schema, resolver, revocable, None);
      r := RegisterInternal(owner, schema, resolver, revocable, None);
      if r.Ok? {
        AddKeepsSound(hash, old(catalog), old(parents), old(history), r.value, rec, Some(before));
        catalog := catalog.(predecessors := catalog.predecessors[r.value := before]);
        history := Grown(old(history), r.value, Some(before));
      }
    }
  }
}
