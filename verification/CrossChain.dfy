/**
 The cross-chain verifier: a fixed wire format, and the store of remote
 verdicts that two message paths feed.
 */
module CrossChain {
  import opened Base
  import opened Bytes

  const MAX_VALIDITY_SECONDS := 24 * 60 * 60
  const STATUS_LEN := 50
  const PROOF_HEADER_LEN := STATUS_LEN + 32 + 20 + 56 + 2
  const MAX_PROOF_DATA_LEN := 1024
  const MAX_MESSAGE_ID_LEN := 128

  datatype Error = NotInitialized | WrongSource | InvalidPayload | InvalidValidity | StaleRevision
                 | MessageNotApproved | UnauthorizedEndpoint | Trap

  datatype Status = Status(uid: seq<byte>, revision: nat, validUntil: nat, valid: bool)

  /** `recipient` is the 56-byte strkey of a Stellar address. */
  datatype Proof = Proof(schema: seq<byte>, evmRecipient: seq<byte>, recipient: seq<byte>, data: seq<byte>)

  datatype Message = Message(status: Status, proof: Option<Proof>)

  // -------------------------------------------------------------- wire format

  /** Values the format can carry; `strkey` is the host's address check. */
  predicate Encodable(m: Message, strkey: seq<byte> -> bool) {
    && |m.status.uid| == 32 && m.status.revision <= U64_MAX && m.status.validUntil <= U64_MAX
    && (m.proof.Some? ==>
          && |m.proof.value.schema| == 32 && |m.proof.value.evmRecipient| == 20
          && |m.proof.value.recipient| == 56 && strkey(m.proof.value.recipient)
          && |m.proof.value.data| <= MAX_PROOF_DATA_LEN)
  }

  function EncodeStatus(tag: byte, s: Status): seq<byte> {
    [tag] + s.uid + ToBytes(s.revision, 8) + ToBytes(s.validUntil, 8) + [if s.valid then 1 else 0]
  }

  function EncodeProof(p: Proof): seq<byte> {
    p.schema + p.evmRecipient + p.recipient + ToBytes(|p.data|, 2) + p.data
  }

  /** Version 1 carries a status; version 2 appends proof fields. */
  function Encode(m: Message): seq<byte> {
    match m.proof
    case None => EncodeStatus(1, m.status)
    case Some(p) => EncodeStatus(2, m.status) + EncodeProof(p)
  }

  /** What `decode_status` accepts and returns. */
  function ReadStatus(p: seq<byte>): Result<Status, Error> {
    if p == [] || !(p[0] == 1 || p[0] == 2) || (p[0] == 1 && |p| != STATUS_LEN) || (p[0] == 2 && |p| < PROOF_HEADER_LEN)
    then Err(InvalidPayload)
    else if p[49] > 1 then Err(InvalidPayload)
    else Ok(Status(p[1..33], BigEndian(p[33..41]), BigEndian(p[41..49]), p[49] == 1))
  }

  /** `(hi << 8) | lo` for a byte `lo`. */
  function ShiftIn(hi: nat, lo: nat): nat {
    hi * 256 + lo
  }

  /** What `decode_proof` accepts and returns. */
  function ReadProof(p: seq<byte>, strkey: seq<byte> -> bool): Result<Option<Proof>, Error> {
    if p == [] || p[0] != 2 then Ok(None)
    else if |p| < PROOF_HEADER_LEN then Err(InvalidPayload)
    else
      var dataLen := ShiftIn(p[158], p[159]);
      if dataLen > MAX_PROOF_DATA_LEN || |p| != PROOF_HEADER_LEN + dataLen then Err(InvalidPayload)
      else if !strkey(p[102..158]) then Err(Trap)
      else Ok(Some(Proof(p[50..82], p[82..102], p[102..158], p[160..])))
  }

  function Read(p: seq<byte>, strkey: seq<byte> -> bool): Result<Message, Error> {
    match ReadStatus(p)
    case Err(e) => Err(e)
    case Ok(status) =>
      match ReadProof(p, strkey)
      case Err(e) => Err(e)
      case Ok(proof) => Ok(Message(status, proof))
  }

  lemma StatusLayout(tag: byte, s: Status, rest: seq<byte>)
    requires |s.uid| == 32
    ensures var p := EncodeStatus(tag, s) + rest;
            && |EncodeStatus(tag, s)| == STATUS_LEN && p[0] == tag && p[1..33] == s.uid
            && p[33..41] == ToBytes(s.revision, 8) && p[41..49] == ToBytes(s.validUntil, 8)
            && p[49] == if s.valid then 1 else 0
  {}

  lemma ProofLayout(head: seq<byte>, q: Proof)
    requires |head| == STATUS_LEN && |q.schema| == 32 && |q.evmRecipient| == 20 && |q.recipient| == 56
    ensures var p := head + EncodeProof(q);
            && p[50..82] == q.schema && p[82..102] == q.evmRecipient && p[102..158] == q.recipient
            && p[158..160] == ToBytes(|q.data|, 2) && p[160..] == q.data
  {}

  lemma TwoBytes(b: seq<byte>)
    requires |b| == 2
    ensures BigEndian(b) == ShiftIn(b[0], b[1])
  {
    assert b[..1][..0] == [] && BigEndian(b[..1]) == b[0];
  }

  lemma StatusReadsBack(tag: byte, s: Status, rest: seq<byte>)
    requires |s.uid| == 32 && s.revision <= U64_MAX && s.validUntil <= U64_MAX
    requires (tag == 1 && rest == []) || (tag == 2 && STATUS_LEN + |rest| >= PROOF_HEADER_LEN)
    ensures ReadStatus(EncodeStatus(tag, s) + rest) == Ok(s)
  {
    U64Range();
    FromTo(s.revision, 8);
    FromTo(s.validUntil, 8);
    StatusLayout(tag, s, rest);
    hide EncodeStatus, ToBytes, BigEndian;
  }

  lemma ProofReadsBack(head: seq<byte>, q: Proof, strkey: seq<byte> -> bool)
    requires |head| == STATUS_LEN && head[0] == 2 && |q.schema| == 32 && |q.evmRecipient| == 20
    requires |q.recipient| == 56 && strkey(q.recipient) && |q.data| <= MAX_PROOF_DATA_LEN
    ensures ReadProof(head + EncodeProof(q), strkey) == Ok(Some(q))
  {
    var p := head + EncodeProof(q);
    ProofLayout(head, q);
    FromTo(|q.data|, 2);
    TwoBytes(p[158..160]);
    hide EncodeProof, ToBytes, BigEndian, ShiftIn;
    assert p[158..160][0] == p[158] && p[158..160][1] == p[159];
  }

  /** Everything encodable reads back as itself. */
  lemma ReadBack(m: Message, strkey: seq<byte> -> bool)
    requires Encodable(m, strkey)
    ensures Read(Encode(m), strkey) == Ok(m)
  {
    hide ReadStatus, ReadProof, EncodeStatus, EncodeProof;
    var s := m.status;
    match m.proof
    case None =>
      StatusReadsBack(1, s, []);
      StatusLayout(1, s, []);
      assert EncodeStatus(1, s) + [] == EncodeStatus(1, s);
      NoProof(EncodeStatus(1, s), strkey);
    case Some(q) =>
      ProofLength(q);
      StatusLayout(2, s, EncodeProof(q));
      StatusReadsBack(2, s, EncodeProof(q));
      ProofReadsBack(EncodeStatus(2, s), q, strkey);
  }

  lemma NoProof(p: seq<byte>, strkey: seq<byte> -> bool)
    requires p != [] && p[0] == 1
    ensures ReadProof(p, strkey) == Ok(None)
  {}

  lemma ProofLength(q: Proof)
    requires |q.schema| == 32 && |q.evmRecipient| == 20 && |q.recipient| == 56
    ensures STATUS_LEN + |EncodeProof(q)| == PROOF_HEADER_LEN + |q.data|
  {}

  lemma StatusParts(p: seq<byte>)
    requires |p| >= STATUS_LEN
    ensures p[..STATUS_LEN] == [p[0]] + p[1..33] + p[33..41] + p[41..49] + [p[49]]
  {}

  lemma ProofParts(p: seq<byte>)
    requires |p| >= PROOF_HEADER_LEN
    ensures p == p[..STATUS_LEN] + (p[50..82] + p[82..102] + p[102..158] + p[158..160] + p[160..])
  {}

  lemma StatusExact(p: seq<byte>)
    requires ReadStatus(p).Ok?
    ensures |p| >= STATUS_LEN && |ReadStatus(p).value.uid| == 32
    ensures ReadStatus(p).value.revision <= U64_MAX && ReadStatus(p).value.validUntil <= U64_MAX
    ensures p[..STATUS_LEN] == EncodeStatus(p[0], ReadStatus(p).value)
  {
    U64Range();
    StatusParts(p);
    ToFrom(p[33..41]);
    ToFrom(p[41..49]);
    BigEndianUpper(p[33..41]);
    BigEndianUpper(p[41..49]);
    hide ToBytes, BigEndian;
  }

  lemma ProofExact(p: seq<byte>, strkey: seq<byte> -> bool)
    requires |p| >= STATUS_LEN && ReadProof(p, strkey).Ok? && ReadProof(p, strkey).value.Some?
    ensures p == p[..STATUS_LEN] + EncodeProof(ReadProof(p, strkey).value.value)
  {
    ProofParts(p);
    TwoBytes(p[158..160]);
    ToFrom(p[158..160]);
    hide ToBytes, BigEndian;
  }

  /** Everything that reads is the encoding of what it reads as. */
  lemma ReadExact(p: seq<byte>, strkey: seq<byte> -> bool)
    requires Read(p, strkey).Ok?
    ensures Encodable(Read(p, strkey).value, strkey) && Encode(Read(p, strkey).value) == p
  {
    StatusExact(p);
    if p[0] == 1 {
      assert p[..STATUS_LEN] == p;
    } else {
      ProofExact(p, strkey);
    }
    hide EncodeStatus, EncodeProof, BigEndian;
  }

  // ------------------------------------------------------------- the decoders

  lemma OneMoreByte(p: seq<byte>, from: nat, i: nat)
    requires from + i < |p|
    ensures BigEndian(p[from..from + i + 1]) == ShiftIn(BigEndian(p[from..from + i]), p[from + i])
  {
    assert p[from..from + i + 1][..i] == p[from..from + i];
  }

  lemma NoByte(p: seq<byte>, from: nat)
    requires from <= |p|
    ensures BigEndian(p[from..from]) == 0
  {}

  /** `decode_status`, accumulating both numbers in one loop. */
  method DecodeStatus(p: seq<byte>) returns (r: Result<Status, Error>)
    ensures r == ReadStatus(p)
    ensures r.Ok? <==> p != [] && (if p[0] == 1 then |p| == 50 else p[0] == 2 && |p| >= 160) && p[49] <= 1
    ensures r.Ok? ==> r.value.uid == p[1..33] && r.value.revision == BigEndian(p[33..41])
                      && r.value.validUntil == BigEndian(p[41..49]) && (r.value.valid <==> p[49] == 1)
    ensures r.Err? ==> r.error == InvalidPayload
  {
    if p == [] || (p[0] == 1 && |p| != STATUS_LEN) || (p[0] == 2 && |p| < PROOF_HEADER_LEN)
      || !(p[0] == 1 || p[0] == 2) {
      return Err(InvalidPayload);
    }
    var uid: seq<byte> := [];
    for i := 0 to 32
      invariant uid == p[1..1 + i]
    {
      uid := uid + [p[1 + i]];
    }
    NoByte(p, 33);
    NoByte(p, 41);
    hide BigEndian, ShiftIn;
    var revision, validUntil: nat := 0, 0;
    for i := 0 to 8
      invariant revision == BigEndian(p[33..33 + i]) && validUntil == BigEndian(p[41..41 + i])
    {
      OneMoreByte(p, 33, i);
      OneMoreByte(p, 41, i);
      revision := ShiftIn(revision, p[33 + i]);
      validUntil := ShiftIn(validUntil, p[41 + i]);
    }
    if p[49] > 1 { return Err(InvalidPayload); }
    r := Ok(Status(uid, revision, validUntil, p[49] == 1));
  }

  /** `decode_proof` */
  method DecodeProof(p: seq<byte>, strkey: seq<byte> -> bool) returns (r: Result<Option<Proof>, Error>)
    ensures r == ReadProof(p, strkey)
    ensures r == Ok(None) <==> p == [] || p[0] != 2
    ensures r.Ok? && r.value.Some? <==>
            && |p| >= 160 && p[0] == 2 && |p| == 160 + BigEndian(p[158..160]) <= 160 + 1024 && strkey(p[102..158])
    ensures r.Ok? && r.value.Some? ==>
              var q := r.value.value;
              q.schema == p[50..82] && q.evmRecipient == p[82..102] && q.recipient == p[102..158] && q.data == p[160..]
  {
    if |p| >= 160 { TwoBytes(p[158..160]); }
    if p == [] || p[0] != 2 { return Ok(None); }
    if |p| < PROOF_HEADER_LEN { return Err(InvalidPayload); }
    var dataLen := ShiftIn(p[158], p[159]);
    if dataLen > MAX_PROOF_DATA_LEN || |p| != PROOF_HEADER_LEN + dataLen { return Err(InvalidPayload); }
    var schema := Copy(p, 50, 32);
    var evm := Copy(p, 82, 20);
    var key := Copy(p, 102, 56);
    var data := Copy(p, 160, dataLen);
    assert p[160..160 + dataLen] == p[160..];
    if !strkey(key) { return Err(Trap); }
    r := Ok(Some(Proof(schema, evm, key, data)));
  }

  method Decode(p: seq<byte>, strkey: seq<byte> -> bool) returns (r: Result<Message, Error>)
    ensures r == Read(p, strkey)
  {
    var status := DecodeStatus(p);
    if status.Err? { return Err(status.error); }
    var proof := DecodeProof(p, strkey);
    if proof.Err? { return Err(proof.error); }
    r := Ok(Message(status.value, proof.value));
  }

  method Copy(p: seq<byte>, from: nat, n: nat) returns (out: seq<byte>)
    requires from + n <= |p|
    ensures out == p[from..from + n]
  {
    out := [];
    for i := 0 to n
      invariant out == p[from..from + i]
    {
      out := out + [p[from + i]];
    }
  }

  // ---------------------------------------------------------- remote verdicts

  /** An accepted update and the ledger time it was accepted at. */
  datatype Update = Update(time: nat, message: Message)

  /** The checks on a decoded status, apart from its revision order. */
  predicate InValidity(s: Status, now: nat) {
    && s.revision != 0
    && (s.valid ==> now < s.validUntil <= SatAdd(now, MAX_VALIDITY_SECONDS, U64_MAX))
    && (!s.valid ==> s.validUntil == 0)
  }

  /** The newest accepted update about a UID. */
  function Latest(log: seq<Update>, uid: seq<byte>): Option<Update> {
    if log == [] then None
    else if log[|log| - 1].message.status.uid == uid then Some(log[|log| - 1])
    else Latest(log[..|log| - 1], uid)
  }

  lemma {:induction false} LatestIn(log: seq<Update>, uid: seq<byte>)
    ensures Latest(log, uid).Some? ==> Latest(log, uid).value in log && Latest(log, uid).value.message.status.uid == uid
    ensures Latest(log, uid).None? ==> forall u :: u in log ==> u.message.status.uid != uid
  {
    if log != [] && log[|log| - 1].message.status.uid != uid { LatestIn(log[..|log| - 1], uid); }
  }

  /** Accepted revisions of one UID strictly increase. */
  predicate Increasing(log: seq<Update>) {
    forall i, j :: 0 <= i < j < |log| && log[i].message.status.uid == log[j].message.status.uid ==>
                     log[i].message.status.revision < log[j].message.status.revision
  }

  predicate Accepted(log: seq<Update>) {
    && Increasing(log)
    && (forall u :: u in log ==> InValidity(u.message.status, u.time))
    && (forall i, j :: 0 <= i < j < |log| ==> log[i].time <= log[j].time)
  }

  /** In an accepted log, the newest update has the highest revision. */
  lemma {:induction false} LatestIsHighest(log: seq<Update>, uid: seq<byte>)
    requires Increasing(log)
    ensures Latest(log, uid).Some? ==>
              forall u :: u in log && u.message.status.uid == uid ==>
                u.message.status.revision <= Latest(log, uid).value.message.status.revision
  {
    if log != [] && log[|log| - 1].message.status.uid != uid { LatestIsHighest(log[..|log| - 1], uid); }
  }

  lemma AcceptGrows(log: seq<Update>, u: Update)
    requires Accepted(log) && InValidity(u.message.status, u.time)
    requires forall v :: v in log ==> v.time <= u.time
    requires var prev := Latest(log, u.message.status.uid);
             prev.Some? ==> prev.value.message.status.revision < u.message.status.revision
    ensures Accepted(log + [u])
  {
    LatestIn(log, u.message.status.uid);
    LatestIsHighest(log, u.message.status.uid);
  }

  /** The stores show the newest accepted update of each UID, and a proof only
      if that very update carried one. */
  ghost predicate Shows(statuses: map<seq<byte>, Status>, proofs: map<seq<byte>, Proof>, log: seq<Update>) {
    forall uid :: match Latest(log, uid) {
                    case None => Get(statuses, uid) == None && Get(proofs, uid) == None
                    case Some(u) => Get(statuses, uid) == Some(u.message.status) && Get(proofs, uid) == u.message.proof
                  }
  }

  lemma ShowsNext(statuses: map<seq<byte>, Status>, proofs: map<seq<byte>, Proof>, log: seq<Update>, u: Update)
    requires Shows(statuses, proofs, log)
    ensures var m := u.message;
            Shows(statuses[m.status.uid := m.status],
                  if m.proof.Some? then proofs[m.status.uid := m.proof.value] else proofs - {m.status.uid}, log + [u])
  {
    assert (log + [u])[..|log|] == log;
    forall uid
      ensures Latest(log + [u], uid) == if uid == u.message.status.uid then Some(u) else Latest(log, uid)
    {}
  }

  /** The decision both message paths share: decodable, within its validity
      window, approved, and newer than anything accepted for its UID. */
  predicate Acceptable(log: seq<Update>, m: Message, now: nat) {
    && InValidity(m.status, now)
    && var prev := Latest(log, m.status.uid);
       prev.Some? ==> prev.value.message.status.revision < m.status.revision
  }

  /** Why a payload from the right source is refused, in the order of the checks. */
  function Refusal(log: seq<Update>, read: Result<Message, Error>, now: nat): Error {
    if read.Err? then read.error
    else if !InValidity(read.value.status, now) then InvalidValidity
    else if !Acceptable(log, read.value, now) then StaleRevision
    else MessageNotApproved
  }

  datatype SourceConfig = SourceConfig(chain: string, address: string)
  datatype LzConfig = LzConfig(srcEid: nat, sender: seq<byte>)

  class Verifier {
    var config: Option<SourceConfig>
    var lzConfig: Option<LzConfig>
    var statuses: map<seq<byte>, Status>
    var proofs: map<seq<byte>, Proof>
    const strkey: seq<byte> -> bool
    /** Accepted updates, oldest first. */
    ghost var log: seq<Update>

    ghost predicate Valid()
      reads this
    {
      Accepted(log) && Shows(statuses, proofs, log)
    }

    constructor (strkey: seq<byte> -> bool, config: Option<SourceConfig>, lzConfig: Option<LzConfig>)
      ensures Valid() && log == []
    {
      this.strkey, this.config, this.lzConfig := strkey, config, lzConfig;
      statuses, proofs, log := map[], map[], [];
    }

    /** In every run the accepted revisions of one UID strictly increase, in time. */
    lemma RevisionsIncrease(i: nat, j: nat)
      requires Valid() && i < j < |log| && log[i].message.status.uid == log[j].message.status.uid
      ensures log[i].message.status.revision < log[j].message.status.revision && log[i].time <= log[j].time
    {}

    /** The tail both message paths share. `approved` is the gateway's answer. */
    method Accept(payload: seq<byte>, now: nat, approved: bool) returns (r: Result<Status, Error>)
      requires Valid() && forall u :: u in log ==> u.time <= now
      modifies this`statuses, this`proofs, this`log
      ensures Valid()
      ensures r.Ok? <==> Read(payload, strkey).Ok? && Acceptable(old(log), Read(payload, strkey).value, now) && approved
      ensures r.Ok? ==> log == old(log) + [Update(now, Read(payload, strkey).value)]
      ensures r.Ok? ==> r.value == Read(payload, strkey).value.status
      ensures r.Err? ==> log == old(log) && statuses == old(statuses) && proofs == old(proofs)
      ensures r.Err? ==> r.error == Refusal(old(log), Read(payload, strkey), now)
      ensures match Read(payload, strkey) {
                case Err(e) => r == Err(e)
                case Ok(m) =>
                  ErrorOf(r) ==
                  Or(When(m.status.revision == 0
                          || (if m.status.valid then !(now < m.status.validUntil <= Min(now + 86_400, U64_MAX))
                              else m.status.validUntil != 0), InvalidValidity),
                  Or(When(m.status.uid in old(statuses) && m.status.revision <= old(statuses)[m.status.uid].revision,
                       StaleRevision),
                     When(!approved, MessageNotApproved)))
              }
      ensures r.Ok? ==>
                && statuses == old(statuses)[r.value.uid := r.value]
                && proofs == var q := Read(payload, strkey).value.proof;
                             if q.Some? then old(proofs)[r.value.uid := q.value] else old(proofs) - {r.value.uid}
    {
      hide Read, Accepted, Latest;
      var decoded := Decode(payload, strkey);
      if decoded.Err? { return Err(decoded.error); }
      var m := decoded.value;
      var s := m.status;
      if s.revision == 0
         || (s.valid && (s.validUntil <= now || s.validUntil > SatAdd(now, MAX_VALIDITY_SECONDS, U64_MAX)))
         || (!s.valid && s.validUntil != 0) {
        return Err(InvalidValidity);
      }
      ghost var prev := Latest(log, s.uid);
      if s.uid in statuses && s.revision <= statuses[s.uid].revision { return Err(StaleRevision); }
      if !approved { return Err(MessageNotApproved); }
      AcceptGrows(log, Update(now, m));
      ShowsNext(statuses, proofs, log, Update(now, m));
      statuses := statuses[s.uid := s];
      proofs := if m.proof.Some? then proofs[s.uid := m.proof.value] else proofs - {s.uid};
      log := log + [Update(now, m)];
      r := Ok(s);
    }

    /** `execute`: any relayer, authenticated by the gateway. */
    method Execute(chain: string, messageId: string, address: string, payload: seq<byte>, now: nat, approved: bool)
      returns (r: Result<Status, Error>)
      requires Valid() && forall u :: u in log ==> u.time <= now
      modifies this`statuses, this`proofs, this`log
      ensures Valid()
      ensures r.Ok? <==>
        && config == Some(SourceConfig(chain, address)) && 0 < |messageId| <= 128 && approved
        && Read(payload, strkey).Ok? && Acceptable(old(log), Read(payload, strkey).value, now)
      ensures r.Ok? ==> log == old(log) + [Update(now, Read(payload, strkey).value)]
      ensures r.Err? ==> log == old(log) && statuses == old(statuses) && proofs == old(proofs)
      ensures r.Err? ==> r.error == if config.None? then NotInitialized
                                    else if config != Some(SourceConfig(chain, address)) then WrongSource
                                    else if messageId == "" || |messageId| > MAX_MESSAGE_ID_LEN then InvalidPayload
                                    else Refusal(old(log), Read(payload, strkey), now)
    {
      hide Read, Acceptable, Accepted, Shows, Refusal;
      if config.None? { return Err(NotInitialized); }
      if chain != config.value.chain || address != config.value.address { return Err(WrongSource); }
      if messageId == "" || |messageId| > MAX_MESSAGE_ID_LEN { return Err(InvalidPayload); }
      r := Accept(payload, now, approved);
    }

    /** `lz_receive`: the configured endpoint must have authorised the call. */
    method LzReceive(endpointAuth: bool, srcEid: nat, sender: seq<byte>, guid: seq<byte>, message: seq<byte>, now: nat)
      returns (r: Result<Status, Error>)
      requires Valid() && forall u :: u in log ==> u.time <= now
      modifies this`statuses, this`proofs, this`log
      ensures Valid()
      ensures r.Ok? <==>
        && lzConfig == Some(LzConfig(srcEid, sender)) && endpointAuth && guid != seq(32, _ => 0)
        && Read(message, strkey).Ok? && Acceptable(old(log), Read(message, strkey).value, now)
      ensures r.Ok? ==> log == old(log) + [Update(now, Read(message, strkey).value)]
      ensures r.Err? ==> log == old(log) && statuses == old(statuses) && proofs == old(proofs)
      ensures r.Err? ==> r.error == if lzConfig.None? then NotInitialized else if !endpointAuth then Trap
                                    else if srcEid != lzConfig.value.srcEid then UnauthorizedEndpoint
                                    else if sender != lzConfig.value.sender then WrongSource
                                    else if guid == seq(32, _ => 0) then InvalidPayload
                                    else Refusal(old(log), Read(message, strkey), now)
    {
      hide Read, Acceptable, Accepted, Shows, Refusal;
      if lzConfig.None? { return Err(NotInitialized); }
      if !endpointAuth { return Err(Trap); }
      if srcEid != lzConfig.value.srcEid { return Err(UnauthorizedEndpoint); }
      if sender != lzConfig.value.sender { return Err(WrongSource); }
      if guid == seq(32, _ => 0) { return Err(InvalidPayload); }
      r := Accept(message, now, true);
    }

    /** `verify_remote`: a positive verdict rests on the newest update, accepted
        less than 24 hours ago. */
    method VerifyRemote(uid: seq<byte>, now: nat) returns (ok: bool)
      requires Valid() && forall u :: u in log ==> u.time <= now
      ensures ok <==> Latest(log, uid).Some? && Latest(log, uid).value.message.status.valid
                      && now < Latest(log, uid).value.message.status.validUntil
      ensures ok ==> var u := Latest(log, uid).value; u in log && u.time <= now < u.time + 86_400
      ensures ok <==> uid in statuses && statuses[uid].valid && now < statuses[uid].validUntil
    {
      LatestIn(log, uid);
      if uid !in statuses { return false; }
      ok := statuses[uid].valid && statuses[uid].validUntil > now;
    }

    /** `get_proof`: the proof of the newest update, or none if it was V1. */
    method GetProof(uid: seq<byte>) returns (proof: Option<Proof>)
      requires Valid()
      ensures proof == if Latest(log, uid).Some? then Latest(log, uid).value.message.proof else None
    {
      ghost var latest := Latest(log, uid);
      proof := Get(proofs, uid);
    }
  }
}
