/** The token database, its cache, and the operations on both as functions. */
module TokenStore {
  import opened Basics

  /** A parsed policy, known by its normal form. */
  datatype Policy = Policy(normal: string)

  /** What is stored under a token hash: a record, or bytes that are not one. A policy is stored either in the
      clear or encrypted. */
  datatype Stored = Garbage | Record(policyJSON: string, encrypted: string, createdAt: string, expiresAt: string)

  /** An entry of the cache; ZERO means that it never expires. */
  datatype Entry = Entry(policy: Policy, expiresAt: int)

  /** The zero value of Go's time. */
  const ZERO: int := 0

  type Db = map<string, Stored>
  type Cache = map<string, Entry>

  /** The code this model does not look into: encryption under the configured key, with a nonce, the policy
      parser, and the time parser. */
  datatype Codec = Codec(keyed: bool, encrypt: (string, string) -> string, decrypt: string -> Option<string>,
                         parse: string -> Option<Policy>, parseTime: string -> Option<int>)

  /** Decrypting undoes encrypting, and no cipher text is empty. */
  ghost predicate Reversible(c: Codec) {
    forall p, nonce :: c.encrypt(p, nonce) != "" && c.decrypt(c.encrypt(p, nonce)) == Some(p)
  }

  datatype Error = InvalidPolicy | InvalidExpiry | Exists | NotFound | BadRecord

  datatype Result<T> = Ok(value: T) | Err(error: Error)

  /** `decryptPolicy` */
  function Plain(c: Codec, r: Stored): Option<string>
    requires r.Record?
  {
    if r.encrypted == "" then Some(r.policyJSON)
    else if c.keyed then c.decrypt(r.encrypted)
    else None
  }

  /** `encryptPolicy` */
  function Sealed(c: Codec, policyJSON: string, nonce: string): (string, string) {
    if c.keyed then ("", c.encrypt(policyJSON, nonce)) else (policyJSON, "")
  }

  function Expiry(c: Codec, expiresAt: string): int {
    match if expiresAt == "" then None else c.parseTime(expiresAt)
    case None => ZERO
    case Some(t) => t
  }

  /** The cache entry a record gives, if any. */
  function Project(c: Codec, r: Stored): Option<Entry> {
    if r.Garbage? then None
    else
      match Plain(c, r)
      case None => None
      case Some(p) =>
        match c.parse(p)
        case None => None
        case Some(policy) => Some(Entry(policy, Expiry(c, r.expiresAt)))
  }

  /** What a reload makes of the database. */
  function Projection(c: Codec, db: Db): Cache {
    map h | h in db && Project(c, db[h]).Some? :: Project(c, db[h]).value
  }

  predicate Expired(e: Entry, now: int) {
    e.expiresAt != ZERO && now > e.expiresAt
  }

  // ---------- The operations ----------

  datatype Store = Store(db: Db, cache: Cache)

  /** A lookup reads the clock once to answer and once more to evict. */
  datatype Op =
    | Create(hash: string, policyJSON: string, expiresAt: string, nonce: string, createdAt: string)
    | Update(hash: string, policyJSON: string, expiresAt: string, nonce: string)
    | Delete(hash: string)
    | Reload
    | Lookup(hash: string, now: int, later: int)

  predicate ValidPolicy(c: Codec, policyJSON: string) {
    c.parse(policyJSON).Some?
  }

  predicate ValidExpiry(c: Codec, expiresAt: string) {
    expiresAt == "" || c.parseTime(expiresAt).Some?
  }

  /** What an operation makes of the database. */
  function Commit(c: Codec, db: Db, op: Op): Result<Db> {
    match op
    case Create(h, p, e, nonce, created) =>
      if !ValidPolicy(c, p) then Err(InvalidPolicy)
      else if !ValidExpiry(c, e) then Err(InvalidExpiry)
      else if h in db then Err(Exists)
      else Ok(db[h := Record(Sealed(c, p, nonce).0, Sealed(c, p, nonce).1, created, e)])
    case Update(h, p, e, nonce) =>
      if p != "" && !ValidPolicy(c, p) then Err(InvalidPolicy)
      else if e != "clear" && !ValidExpiry(c, e) then Err(InvalidExpiry)
      else if h !in db then Err(NotFound)
      else if db[h].Garbage? then Err(BadRecord)
      else Ok(db[h := Updated(c, db[h], p, e, nonce)])
    case Delete(h) => if h !in db then Err(NotFound) else Ok(db - {h})
    case Reload => Ok(db)
    case Lookup(_, _, _) => Ok(db)
  }

  /** An empty policy or expiry keeps what there was; "clear" takes the expiry away. */
  function Updated(c: Codec, r: Stored, p: string, e: string, nonce: string): Stored
    requires r.Record?
  {
    var sealed := if p == "" then (r.policyJSON, r.encrypted) else Sealed(c, p, nonce);
    Record(sealed.0, sealed.1, r.createdAt, if e == "clear" then "" else if e == "" then r.expiresAt else e)
  }

  /** Answers from the cache. */
  function Answer(cache: Cache, h: string, now: int): Option<Policy> {
    if h in cache && !Expired(cache[h], now) then Some(cache[h].policy) else None
  }

  /** Whether a lookup drops the entry it found expired. */
  predicate Evicts(cache: Cache, h: string, now: int, later: int) {
    h in cache && Expired(cache[h], now) && Expired(cache[h], later)
  }

  /** Every change that commits reloads the cache; one that fails leaves everything as it was. */
  function Step(c: Codec, s: Store, op: Op): Store {
    match op
    case Lookup(h, now, later) => if Evicts(s.cache, h, now, later) then s.(cache := s.cache - {h}) else s
    case _ =>
      match Commit(c, s.db, op)
      case Ok(db) => Store(db, Projection(c, db))
      case Err(_) => s
  }

  /** From any database, as `Init` finds it. */
  function Run(c: Codec, db: Db, ops: seq<Op>): Store {
    if ops == [] then Store(db, Projection(c, db))
    else Step(c, Run(c, db, ops[..|ops| - 1]), ops[|ops| - 1])
  }

  // ---------- The cache agrees with the database ----------

  /** What the database says of a token now, independently of any cache. */
  function Current(c: Codec, db: Db, h: string, now: int): Option<Policy> {
    if h !in db then None
    else
      match Project(c, db[h])
      case None => None
      case Some(e) => if Expired(e, now) then None else Some(e.policy)
  }

  /** The cache is the projection, less entries that have expired. */
  ghost predicate Agrees(c: Codec, s: Store, now: int) {
    && (forall h :: h in s.cache ==> h in Projection(c, s.db) && s.cache[h] == Projection(c, s.db)[h])
    && (forall h :: h in Projection(c, s.db) && h !in s.cache ==> Expired(Projection(c, s.db)[h], now))
  }

  /** Every clock reading is no earlier than the ones before, and none is after `now`. */
  predicate Clocked(ops: seq<Op>, now: int) {
    ops == [] ||
    var op := ops[|ops| - 1];
    if op.Lookup? then op.now <= op.later <= now && Clocked(ops[..|ops| - 1], op.now)
    else Clocked(ops[..|ops| - 1], now)
  }

  lemma {:induction false} StepAgrees(c: Codec, s: Store, op: Op, before: int, now: int)
    requires Agrees(c, s, before) && before <= now
    requires op.Lookup? ==> before <= op.now <= op.later <= now
    ensures Agrees(c, Step(c, s, op), now)
  {
  }

  lemma {:induction false} RunAgrees(c: Codec, db: Db, ops: seq<Op>, now: int)
    requires Clocked(ops, now)
    ensures Agrees(c, Run(c, db, ops), now)
  {
    if ops != [] {
      var op := ops[|ops| - 1];
      var before := if op.Lookup? then op.now else now;
      RunAgrees(c, db, ops[..|ops| - 1], before);
      StepAgrees(c, Run(c, db, ops[..|ops| - 1]), op, before, now);
    }
  }

  /** Main result: after every run, whatever was looked up and evicted in it, a lookup answers exactly what the
      database says: the policy of a record that exists, decrypts, parses and has not expired. */
  lemma {:induction false} LookupIsCurrent(c: Codec, db: Db, ops: seq<Op>, h: string, now: int)
    requires Clocked(ops, now)
    ensures Answer(Run(c, db, ops).cache, h, now) == Current(c, Run(c, db, ops).db, h, now)
  {
    RunAgrees(c, db, ops, now);
  }

  /** Without the assumption on the clock it is false: an entry evicted while the clock ran ahead is missed. */
  lemma {:induction false} ClockBackward(c: Codec, p: string, e: string)
    requires ValidPolicy(c, p) && e != "" && c.parseTime(e) == Some(5) && !c.keyed
    ensures
      var db := map["h" := Record(p, "", "", e)];
      var s := Run(c, db, [Op.Lookup("h", 6, 6)]);
      Answer(s.cache, "h", 5) == None && Current(c, s.db, "h", 5).Some?
  {
    var db := map["h" := Record(p, "", "", e)];
    assert [Op.Lookup("h", 6, 6)][..0] == [];
    assert "h" in Projection(c, db);
  }

  // ---------- Writes are read back ----------

  /** What is read of a record: `Get`. */
  datatype TokenRecord = TokenRecord(policyRaw: string, policy: Policy, createdAt: string, expiresAt: string)

  function Get(c: Codec, db: Db, h: string): Result<Option<TokenRecord>> {
    if h !in db then Ok(None)
    else if db[h].Garbage? then Err(BadRecord)
    else
      match Plain(c, db[h])
      case None => Err(BadRecord)
      case Some(p) =>
        match c.parse(p)
        case None => Err(InvalidPolicy)
        case Some(policy) => Ok(Some(TokenRecord(p, policy, db[h].createdAt, db[h].expiresAt)))
  }

  /** Main result: a token that was created is read back as it was given, encrypted or not, and a lookup finds it
      until its expiry. */
  lemma {:induction false} CreatedIsRead(c: Codec, db: Db, op: Op, now: int)
    requires Reversible(c) && op.Create? && Commit(c, db, op).Ok?
    ensures
      var after := Commit(c, db, op).value;
      var policy := c.parse(op.policyJSON).value;
      && Get(c, after, op.hash) == Ok(Some(TokenRecord(op.policyJSON, policy, op.createdAt, op.expiresAt)))
      && (Current(c, after, op.hash, now) == Some(policy)
          <==> op.expiresAt == "" || c.parseTime(op.expiresAt).value == ZERO || now <= c.parseTime(op.expiresAt).value)
  {
    assert Plain(c, Commit(c, db, op).value[op.hash]) == Some(op.policyJSON);
  }

  /** An update changes what it names and keeps the rest, also when the record was written under another key
      setting. */
  lemma {:induction false} UpdatedIsRead(c: Codec, db: Db, op: Op)
    requires Reversible(c) && op.Update? && Commit(c, db, op).Ok? && Get(c, db, op.hash).Ok?
    ensures
      var was := Get(c, db, op.hash).value.value;
      Get(c, Commit(c, db, op).value, op.hash)
        == Ok(Some(TokenRecord(if op.policyJSON == "" then was.policyRaw else op.policyJSON,
                               if op.policyJSON == "" then was.policy else c.parse(op.policyJSON).value,
                               was.createdAt,
                               if op.expiresAt == "clear" then "" else if op.expiresAt == "" then was.expiresAt
                               else op.expiresAt)))
  {
  }

  /** No operation touches another token. */
  lemma {:induction false} OthersUntouched(c: Codec, db: Db, op: Op, h: string)
    requires Commit(c, db, op).Ok? && (op.Create? || op.Update? || op.Delete? ==> h != op.hash)
    ensures
      var after := Commit(c, db, op).value;
      (h in after <==> h in db) && (h in db ==> after[h] == db[h])
  {
  }

  // ---------- When operations succeed ----------

  /** The policy parses, the expiry is empty or parses, and the hash is not stored. */
  predicate Creatable(c: Codec, db: Db, hash: string, policyJSON: string, expiresAt: string) {
    && c.parse(policyJSON) != None
    && (expiresAt == "" || c.parseTime(expiresAt) != None)
    && hash !in db
  }

  /** The policy is left out or parses, the expiry is left out or "clear" or parses, and there is a record. */
  predicate Updatable(c: Codec, db: Db, hash: string, policyJSON: string, expiresAt: string) {
    && (policyJSON == "" || c.parse(policyJSON) != None)
    && (expiresAt == "" || expiresAt == "clear" || c.parseTime(expiresAt) != None)
    && hash in db && db[hash] != Garbage
  }

  /** The stored form of a policy: in the clear without a key, and only encrypted with one. */
  predicate Keeps(c: Codec, r: Stored, policyJSON: string, nonce: string) {
    r.Record? && if c.keyed then r.policyJSON == "" && r.encrypted == c.encrypt(policyJSON, nonce)
                 else r.policyJSON == policyJSON && r.encrypted == ""
  }

  /** A token is created exactly if its policy and expiry are good and its hash is new, and stored as it was given; if
      not, the error is the first of the three that fails. */
  lemma {:induction false} CreatesExactly(c: Codec, db: Db, op: Op)
    requires op.Create?
    ensures Commit(c, db, op).Ok? <==> Creatable(c, db, op.hash, op.policyJSON, op.expiresAt)
    ensures Commit(c, db, op).Ok? ==>
      var after := Commit(c, db, op).value;
      && after.Keys == db.Keys + {op.hash} && (forall h :: h in db ==> after[h] == db[h])
      && Keeps(c, after[op.hash], op.policyJSON, op.nonce)
      && after[op.hash].createdAt == op.createdAt && after[op.hash].expiresAt == op.expiresAt
    ensures Commit(c, db, op) == Err(InvalidPolicy) <==> c.parse(op.policyJSON) == None
    ensures Commit(c, db, op) == Err(InvalidExpiry)
       <==> c.parse(op.policyJSON) != None && op.expiresAt != "" && c.parseTime(op.expiresAt) == None
    ensures Commit(c, db, op).Err? ==> Commit(c, db, op).error in {InvalidPolicy, InvalidExpiry, Exists}
  {
  }

  /** A token is updated exactly if what is given is good and there is a record of it; what is given
      replaces what was there, and "clear" the expiry by nothing. */
  lemma {:induction false} UpdatesExactly(c: Codec, db: Db, op: Op)
    requires op.Update?
    ensures Commit(c, db, op).Ok? <==> Updatable(c, db, op.hash, op.policyJSON, op.expiresAt)
    ensures Commit(c, db, op).Ok? ==>
      var after, r := Commit(c, db, op).value, db[op.hash];
      && after.Keys == db.Keys && (forall h :: h in db && h != op.hash ==> after[h] == db[h])
      && after[op.hash].Record? && after[op.hash].createdAt == r.createdAt
      && (op.policyJSON != "" ==> Keeps(c, after[op.hash], op.policyJSON, op.nonce))
      && (op.policyJSON == "" ==>
            after[op.hash].policyJSON == r.policyJSON && after[op.hash].encrypted == r.encrypted)
      && (op.expiresAt == "" ==> after[op.hash].expiresAt == r.expiresAt)
      && (op.expiresAt == "clear" ==> after[op.hash].expiresAt == "")
      && (op.expiresAt !in {"", "clear"} ==> after[op.hash].expiresAt == op.expiresAt)
    ensures Commit(c, db, op) == Err(InvalidPolicy) <==> op.policyJSON != "" && c.parse(op.policyJSON) == None
    ensures Commit(c, db, op) == Err(InvalidExpiry)
       <==> (op.policyJSON == "" || c.parse(op.policyJSON) != None)
            && op.expiresAt !in {"", "clear"} && c.parseTime(op.expiresAt) == None
    ensures Commit(c, db, op) == Err(NotFound) ==> op.hash !in db
    ensures Commit(c, db, op) == Err(BadRecord) ==> op.hash in db && db[op.hash] == Garbage
    ensures Commit(c, db, op).Err? ==> Commit(c, db, op).error in {InvalidPolicy, InvalidExpiry, NotFound, BadRecord}
  {
  }

  /** A lookup and a reload change no record. */
  lemma {:induction false} RecordStays(c: Codec, s: Store, op: Op, h: string)
    requires h in s.db && ((op.Update? || op.Delete?) ==> op.hash != h)
    ensures h in Step(c, s, op).db && Step(c, s, op).db[h] == s.db[h]
  {
  }

  /** Main result: over every run, a stored record changes only by an Update or a Delete of its own hash. */
  lemma {:induction false} RecordKept(c: Codec, db: Db, ops: seq<Op>, more: seq<Op>, h: string)
    requires h in Run(c, db, ops).db
    requires forall i :: 0 <= i < |more| && (more[i].Update? || more[i].Delete?) ==> more[i].hash != h
    ensures h in Run(c, db, ops + more).db && Run(c, db, ops + more).db[h] == Run(c, db, ops).db[h]
  {
    if more == [] {
      assert ops + more == ops;
    } else {
      var n := |more| - 1;
      RecordKept(c, db, ops, more[..n], h);
      assert (ops + more)[..|ops| + n] == ops + more[..n];
      RecordStays(c, Run(c, db, ops + more[..n]), more[n], h);
    }
  }

  // ---------- What is read ----------

  /** The record's policy in the clear, if it can be had. */
  predicate Reads(c: Codec, r: Stored, policyJSON: string) {
    && r.Record?
    && if r.encrypted == "" then policyJSON == r.policyJSON
       else c.keyed && c.decrypt(r.encrypted) == Some(policyJSON)
  }

  /** Main result: the cache of a database has an entry for exactly those records that can be read and whose policy
      parses, with the expiry if there is one that parses, and no expiry if not. */
  lemma {:induction false} ProjectionExactly(c: Codec, db: Db, h: string, e: Entry)
    ensures h in Projection(c, db) && Projection(c, db)[h] == e
       <==> && h in db && (exists p :: Reads(c, db[h], p) && c.parse(p) == Some(e.policy))
            && e.expiresAt == (match if db[h].expiresAt == "" then None else c.parseTime(db[h].expiresAt)
                               case None => 0
                               case Some(t) => t)
  {
    if h in db && db[h].Record? {
      var plain := Plain(c, db[h]);
      if plain.Some? {
        assert Reads(c, db[h], plain.value);
      }
    }
  }

  /** A lookup finds an entry exactly if it never expires or expires no earlier than now. */
  lemma {:induction false} AnswersExactly(cache: Cache, h: string, now: int, policy: Policy)
    ensures Answer(cache, h, now) == Some(policy)
       <==> h in cache && cache[h].policy == policy && (cache[h].expiresAt == 0 || now <= cache[h].expiresAt)
  {
  }

  /** `Get` gives a record exactly if it can be read and its policy parses, and nothing exactly if there is none. */
  lemma {:induction false} GetsExactly(c: Codec, db: Db, h: string, r: TokenRecord)
    ensures Get(c, db, h) == Ok(None) <==> h !in db
    ensures Get(c, db, h) == Ok(Some(r))
       <==> && h in db && Reads(c, db[h], r.policyRaw) && c.parse(r.policyRaw) == Some(r.policy)
            && db[h].createdAt == r.createdAt && db[h].expiresAt == r.expiresAt
    ensures Get(c, db, h) == Err(InvalidPolicy)
       <==> h in db && exists p :: Reads(c, db[h], p) && c.parse(p) == None
  {
    if h in db && db[h].Record? && Plain(c, db[h]).Some? {
      assert Reads(c, db[h], Plain(c, db[h]).value);
    }
  }
}
