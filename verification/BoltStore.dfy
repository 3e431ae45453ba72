/** The store as the program has it: a database file and a cache, edited in place. */
module BoltStores {
  import opened Basics
  import opened TokenStore

  class BoltStore {
    const codec: Codec
    var db: Db
    var cache: Cache

    /** `Init` on an existing database. */
    constructor (codec: Codec, db: Db)
      ensures this.codec == codec && View() == Run(codec, db, [])
    {
      this.codec := codec;
      this.db := db;
      this.cache := map[];
      new;
      Reload();
    }

    ghost function View(): Store
      reads this
    {
      Store(db, cache)
    }

    method EncryptPolicy(policyJSON: string, nonce: string) returns (plain: string, encrypted: string)
      ensures (plain, encrypted) == Sealed(codec, policyJSON, nonce)
    {
      if !codec.keyed {
        return policyJSON, "";
      }
      return "", codec.encrypt(policyJSON, nonce);
    }

    method DecryptPolicy(rec: Stored) returns (policyJSON: Option<string>)
      requires rec.Record?
      ensures policyJSON == Plain(codec, rec)
    {
      if rec.encrypted != "" {
        if !codec.keyed {
          return None;
        }
        return codec.decrypt(rec.encrypted);
      }
      return Some(rec.policyJSON);
    }

    method Create(hash: string, policyJSON: string, expiresAt: string, nonce: string, createdAt: string)
      returns (r: Result<()>)
      modifies this
      ensures View() == Step(codec, old(View()), Op.Create(hash, policyJSON, expiresAt, nonce, createdAt))
      ensures var commit := Commit(codec, old(db), Op.Create(hash, policyJSON, expiresAt, nonce, createdAt));
              r == if commit.Ok? then Ok(()) else Err(commit.error)
      ensures r.Ok? <==> Creatable(codec, old(db), hash, policyJSON, expiresAt)
      ensures r.Err? ==> db == old(db) && cache == old(cache)
      ensures r.Err? ==> r.error == if codec.parse(policyJSON) == None then InvalidPolicy
                                    else if expiresAt != "" && codec.parseTime(expiresAt) == None then InvalidExpiry
                                    else Exists
    {
      CreatesExactly(codec, db, Op.Create(hash, policyJSON, expiresAt, nonce, createdAt));
      if codec.parse(policyJSON).None? {
        return Err(InvalidPolicy);
      }
      if expiresAt != "" && codec.parseTime(expiresAt).None? {
        return Err(InvalidExpiry);
      }
      var plain, encrypted := EncryptPolicy(policyJSON, nonce);
      if hash in db {
        return Err(Exists);
      }
      db := db[hash := Record(plain, encrypted, createdAt, expiresAt)];
      Reload();
      return Ok(());
    }

    method Update(hash: string, policyJSON: string, expiresAt: string, nonce: string) returns (r: Result<()>)
      modifies this
      ensures View() == Step(codec, old(View()), Op.Update(hash, policyJSON, expiresAt, nonce))
      ensures var commit := Commit(codec, old(db), Op.Update(hash, policyJSON, expiresAt, nonce));
              r == if commit.Ok? then Ok(()) else Err(commit.error)
      ensures r.Ok? <==> Updatable(codec, old(db), hash, policyJSON, expiresAt)
      ensures r.Err? ==> db == old(db) && cache == old(cache)
    {
      UpdatesExactly(codec, db, Op.Update(hash, policyJSON, expiresAt, nonce));
      if policyJSON != "" && codec.parse(policyJSON).None? {
        return Err(InvalidPolicy);
      }
      if expiresAt != "" && expiresAt != "clear" && codec.parseTime(expiresAt).None? {
        return Err(InvalidExpiry);
      }
      if hash !in db {
        return Err(NotFound);
      }
      var rec := db[hash];
      if rec.Garbage? {
        return Err(BadRecord);
      }
      if policyJSON != "" {
        var plain, encrypted := EncryptPolicy(policyJSON, nonce);
        rec := rec.(policyJSON := plain, encrypted := encrypted);
      }
      if expiresAt == "clear" {
        rec := rec.(expiresAt := "");
      } else if expiresAt != "" {
        rec := rec.(expiresAt := expiresAt);
      }
      db := db[hash := rec];
      Reload();
      return Ok(());
    }

    method Delete(hash: string) returns (r: Result<()>)
      modifies this
      ensures View() == Step(codec, old(View()), Op.Delete(hash))
      ensures r == if hash in old(db) then Ok(()) else Err(NotFound)
      ensures db == old(db) - {hash} && (r.Err? ==> cache == old(cache))
    {
      if hash !in db {
        return Err(NotFound);
      }
      db := db - {hash};
      Reload();
      return Ok(());
    }

    method Get(hash: string) returns (r: Result<Option<TokenRecord>>)
      ensures r == TokenStore.Get(codec, db, hash)
    {
      if hash !in db {
        return Ok(None);
      }
      var rec := db[hash];
      if rec.Garbage? {
        return Err(BadRecord);
      }
      var policyJSON := DecryptPolicy(rec);
      if policyJSON.None? {
        return Err(BadRecord);
      }
      var policy := codec.parse(policyJSON.value);
      if policy.None? {
        return Err(InvalidPolicy);
      }
      return Ok(Some(TokenRecord(policyJSON.value, policy.value, rec.createdAt, rec.expiresAt)));
    }

    /** The clock is read at `now`, and again at `later` if the entry looked expired; `event` says whether the
        expiry was reported. */
    method Lookup(hash: string, now: int, later: int) returns (policy: Option<Policy>, event: bool)
      modifies this`cache
      ensures View() == Step(codec, old(View()), Op.Lookup(hash, now, later))
      ensures policy == Answer(old(cache), hash, now)
      ensures event <==> hash in old(cache) && hash !in cache
      ensures db == old(db)
      ensures policy.Some? <==>
        hash in old(cache) && var e := old(cache)[hash]; e.expiresAt == 0 || now <= e.expiresAt
      ensures event <==>
        hash in old(cache) && var e := old(cache)[hash]; e.expiresAt != 0 && e.expiresAt < now && e.expiresAt < later
      ensures cache == if event then old(cache) - {hash} else old(cache)
    {
      event := false;
      if hash !in cache {
        return None, event;
      }
      var entry := cache[hash];
      if entry.expiresAt != ZERO && now > entry.expiresAt {
        var latest := cache[hash];
        if latest.expiresAt != ZERO && later > latest.expiresAt {
          cache := cache - {hash};
          event := true;
        }
        return None, event;
      }
      return Some(entry.policy), event;
    }

    /** Builds a new cache from every readable record, in any order, and installs it. */
    method Reload()
      modifies this`cache
      ensures cache == Projection(codec, db)
    {
      var newCache: Cache := map[];
      var keys := db.Keys;
      while keys != {}
        invariant keys <= db.Keys
        invariant forall h :: h in newCache <==> h in db && h !in keys && Project(codec, db[h]).Some?
        invariant forall h :: h in newCache ==> newCache[h] == Project(codec, db[h]).value
        decreases |keys|
      {
        var h :| h in keys;
        keys := keys - {h};
        if db[h].Record? {
          var entry := Parse(db[h]);
          if entry.Some? {
            newCache := newCache[h := entry.value];
          }
        }
      }
      cache := newCache;
    }

    method Parse(rec: Stored) returns (entry: Option<Entry>)
      requires rec.Record?
      ensures entry == Project(codec, rec)
    {
      var policyJSON := DecryptPolicy(rec);
      if policyJSON.None? {
        return None;
      }
      var policy := codec.parse(policyJSON.value);
      if policy.None? {
        return None;
      }
      var expiresAt := ZERO;
      if rec.expiresAt != "" {
        var t := codec.parseTime(rec.expiresAt);
        if t.Some? {
          expiresAt := t.value;
        }
      }
      return Some(Entry(policy.value, expiresAt));
    }
  }
}
