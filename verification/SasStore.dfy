/**
 How attestation records are laid out in storage: a packed row, either under
 its own key or under the UID; full rows left over from before packing; and
 activation times in side entries. Read as one map from UID to attestation.
 */
module SasStore {
  import opened Base
  import opened Bytes
  import opened Sas

  type Meta = m: seq<byte> | |m| == 25 witness seq(25, _ => 0)

  datatype Compact = Compact(schema: Uid, refUid: Uid, recipient: Address, attester: Address, meta: Meta,
      data: seq<byte>)

  datatype Row = CompactRow(compact: Compact) | LegacyRow(full: Attestation)

  datatype Storage = Storage(compactRows: map<Uid, Compact>, rows: map<Uid, Row>, validFrom: map<Uid, u64>)

  // ------------------------------------------------------------------ packing

  function Flags(revocable: bool, revoked: bool, deprecated: bool): byte {
    (if revocable then 1 else 0) + (if revoked then 2 else 0) + (if deprecated then 4 else 0)
  }

  function PackMeta(time: u64, expiration: u64, revocation: u64, revocable: bool, deprecated: bool): Meta {
    [Flags(revocable, revocation > 0, deprecated)] + ToBytes(time, 8) + ToBytes(expiration, 8) + ToBytes(revocation, 8)
  }

  function ReadU64(bytes: seq<byte>): u64
    requires |bytes| == 8
  {
    BigEndianUpper(bytes);
    U64Range();
    BigEndian(bytes)
  }

  /** The low flag bit. */
  predicate IsRevocable(meta: Meta) {
    meta[0] % 2 == 1
  }

  function Pack(a: Attestation): Compact {
    Compact(a.schema, a.refUid, a.recipient, a.attester,
            PackMeta(a.time, a.expiration, a.revocationTime, a.revocable, false), a.data)
  }

  function Unpack(c: Compact, uid: Uid): Attestation {
    Attestation(uid, c.schema, ReadU64(c.meta[1..9]), ReadU64(c.meta[9..17]), ReadU64(c.meta[17..25]), c.refUid,
                c.recipient, c.attester, IsRevocable(c.meta), c.data, 0)
  }

  lemma MetaLayout(time: u64, expiration: u64, revocation: u64, revocable: bool, deprecated: bool)
    ensures var m := PackMeta(time, expiration, revocation, revocable, deprecated);
            && m[1..9] == ToBytes(time, 8) && m[9..17] == ToBytes(expiration, 8) && m[17..25] == ToBytes(revocation, 8)
            && m[0] == (if revocable then 1 else 0) + (if revocation > 0 then 2 else 0) + (if deprecated then 4 else 0)
  {}

  /** Packing keeps everything but the activation time. */
  lemma PackRoundTrip(a: Attestation)
    ensures Unpack(Pack(a), a.uid) == a.(validFrom := 0)
  {
    MetaLayout(a.time, a.expiration, a.revocationTime, a.revocable, false);
    U64Range();
    FromTo(a.time, 8);
    FromTo(a.expiration, 8);
    FromTo(a.revocationTime, 8);
  }

  // ------------------------------------------------------------ record access

  function WithValidFrom(st: Storage, uid: Uid, a: Attestation): Attestation {
    if uid in st.validFrom then a.(validFrom := st.validFrom[uid]) else a
  }

  /** `read_attestation` */
  function ReadRecord(st: Storage, uid: Uid): Option<Attestation> {
    if uid in st.compactRows then Some(WithValidFrom(st, uid, Unpack(st.compactRows[uid], uid)))
    else if uid in st.rows then
      match st.rows[uid]
      case CompactRow(c) => Some(WithValidFrom(st, uid, Unpack(c, uid)))
      case LegacyRow(a) => Some(WithValidFrom(st, uid, a))
    else None
  }

  /** `has_attestation` */
  predicate HasRecord(st: Storage, uid: Uid) {
    uid in st.compactRows || uid in st.rows
  }

  /** `write_attestation` */
  function WriteRecord(st: Storage, a: Attestation): Storage {
    Storage(if a.uid in st.compactRows then st.compactRows[a.uid := Pack(a)] else st.compactRows,
            if a.uid in st.compactRows then st.rows else st.rows[a.uid := CompactRow(Pack(a))],
            if a.validFrom != 0 then st.validFrom[a.uid := a.validFrom] else st.validFrom - {a.uid})
  }

  /** `remove_attestation`, without the anchors. */
  function RemoveRecord(st: Storage, uid: Uid): Storage {
    Storage(st.compactRows - {uid}, st.rows - {uid}, st.validFrom - {uid})
  }

  /** `migrate_attestation` */
  function MigrateRecord(st: Storage, uid: Uid): Storage {
    if uid in st.rows && st.rows[uid].LegacyRow? then
      var legacy := st.rows[uid].full;
      Storage(st.compactRows, st.rows[uid := CompactRow(Pack(legacy))],
              if legacy.validFrom != 0 then st.validFrom[uid := legacy.validFrom] else st.validFrom)
    else st
  }

  /** The map from UID to attestation the layouts stand for. */
  function Abs(st: Storage): map<Uid, Attestation> {
    map u | u in st.compactRows.Keys + st.rows.Keys :: ReadRecord(st, u).value
  }

  lemma AbsReads(st: Storage, uid: Uid)
    ensures Get(Abs(st), uid) == ReadRecord(st, uid)
    ensures HasRecord(st, uid) <==> uid in Abs(st)
  {}

  lemma WriteReads(st: Storage, a: Attestation, uid: Uid)
    ensures ReadRecord(WriteRecord(st, a), uid) == if uid == a.uid then Some(a) else ReadRecord(st, uid)
  {
    PackRoundTrip(a);
  }

  /** Writing is updating the map, whichever layout held the record. */
  lemma WriteIsUpdate(st: Storage, a: Attestation)
    ensures Abs(WriteRecord(st, a)) == Abs(st)[a.uid := a]
  {
    var st' := WriteRecord(st, a);
    hide WriteRecord, ReadRecord, Abs, HasRecord;
    forall u
      ensures u in Abs(st') <==> u in Abs(st) || u == a.uid
      ensures u in Abs(st') ==> Abs(st')[u] == if u == a.uid then a else Abs(st)[u]
    {
      WriteReads(st, a, u);
      AbsReads(st, u);
      AbsReads(st', u);
    }
  }

  lemma RemoveReads(st: Storage, uid: Uid, u: Uid)
    ensures ReadRecord(RemoveRecord(st, uid), u) == if u == uid then None else ReadRecord(st, u)
  {}

  /** Removing is deleting from the map: no layout lets the record linger. */
  lemma RemoveIsDelete(st: Storage, uid: Uid)
    ensures Abs(RemoveRecord(st, uid)) == Abs(st) - {uid}
  {
    var st' := RemoveRecord(st, uid);
    hide RemoveRecord, ReadRecord, Abs, HasRecord;
    forall u
      ensures u in Abs(st') <==> u in Abs(st) && u != uid
      ensures u in Abs(st') ==> Abs(st')[u] == Abs(st)[u]
    {
      RemoveReads(st, uid, u);
      AbsReads(st, u);
      AbsReads(st', u);
    }
  }

  /** Legacy rows are filed under their own UID. */
  predicate WellFiled(st: Storage) {
    forall u :: u in st.rows && st.rows[u].LegacyRow? ==> st.rows[u].full.uid == u
  }

  /** A filed store is read under the records' own UIDs, and stays filed. */
  lemma WellFiledReads(st: Storage, uid: Uid)
    requires WellFiled(st)
    ensures ReadRecord(st, uid).Some? ==> ReadRecord(st, uid).value.uid == uid
    ensures WellFiled(RemoveRecord(st, uid)) && WellFiled(MigrateRecord(st, uid))
  {}

  lemma SameReadings(st: Storage, other: Storage)
    ensures Abs(st) == Abs(other) <==> forall u :: ReadRecord(st, u) == ReadRecord(other, u)
  {
    if Abs(st) == Abs(other) {
      forall u ensures ReadRecord(st, u) == ReadRecord(other, u) {
        AbsReads(st, u);
        AbsReads(other, u);
      }
    }
    if forall u :: ReadRecord(st, u) == ReadRecord(other, u) {
      forall u ensures Get(Abs(st), u) == Get(Abs(other), u) {
        AbsReads(st, u);
        AbsReads(other, u);
      }
      assert forall u :: u in Abs(st) <==> Get(Abs(st), u).Some?;
      assert forall u :: u in Abs(other) <==> Get(Abs(other), u).Some?;
      assert forall u :: u in Abs(st) ==> Get(Abs(st), u) == Some(Abs(st)[u]);
      assert forall u :: u in Abs(other) ==> Get(Abs(other), u) == Some(Abs(other)[u]);
    }
  }

  /** Migrating a legacy row leaves every reading unchanged exactly when the row
      has no activation time, or the side entry already holds it, or there is
      neither a side entry nor a row under the packed key. */
  lemma MigrateExact(st: Storage, uid: Uid)
    requires WellFiled(st) && uid in st.rows && st.rows[uid].LegacyRow?
    ensures var at := st.rows[uid].full.validFrom;
            (forall u :: ReadRecord(MigrateRecord(st, uid), u) == ReadRecord(st, u)) <==>
            at == 0 || Get(st.validFrom, uid) == Some(at) || (uid !in st.validFrom && uid !in st.compactRows)
  {
    var legacy := st.rows[uid].full;
    var st' := MigrateRecord(st, uid);
    PackRoundTrip(legacy);
    assert forall u :: u != uid ==> ReadRecord(st', u) == ReadRecord(st, u);
    assert (forall u :: ReadRecord(st', u) == ReadRecord(st, u)) <==> ReadRecord(st', uid) == ReadRecord(st, uid);
  }

  /** A legacy row and a side entry that disagree: migration changes the reading. */
  lemma MigrationMisreads(a: Attestation, side: u64)
    requires a.validFrom != 0 && side != a.validFrom
    ensures var st := Storage(map[], map[a.uid := LegacyRow(a)], map[a.uid := side]);
            && WellFiled(st) && ReadRecord(st, a.uid) == Some(a.(validFrom := side))
            && ReadRecord(MigrateRecord(st, a.uid), a.uid) == Some(a)
  {
    PackRoundTrip(a);
  }

  /** The activation time a migration would carry over. */
  function LegacyTime(st: Storage, uid: Uid): u64 {
    if uid in st.rows && st.rows[uid].LegacyRow? then st.rows[uid].full.validFrom else 0
  }

  /** The same of the map, for every UID. */
  lemma MigrateKeepsMap(st: Storage, uid: Uid)
    requires WellFiled(st)
    ensures WellFiled(MigrateRecord(st, uid))
    ensures var at := LegacyTime(st, uid);
            Abs(MigrateRecord(st, uid)) == Abs(st) <==>
            at == 0 || Get(st.validFrom, uid) == Some(at) || (uid !in st.validFrom && uid !in st.compactRows)
  {
    WellFiledReads(st, uid);
    SameReadings(MigrateRecord(st, uid), st);
    if uid in st.rows && st.rows[uid].LegacyRow? {
      MigrateExact(st, uid);
    }
    hide Abs, ReadRecord, WellFiled;
  }
}
