/** The additive sync of remote tokens into the local store. */
module Sync {
  import opened Basics
  import opened TokenStore
  import opened BoltStores

  datatype Token = Token(hash: string, policy: string, expiresAt: string)

  /** The nonce and the time stamp the store uses for the k-th token. */
  datatype Env = Env(nonce: nat -> string, createdAt: nat -> string)

  /** What is done for one token: nothing if it cannot be read or is as it should be. */
  function Action(c: Codec, db: Db, t: Token, env: Env, k: nat): Option<Op> {
    match Get(c, db, t.hash)
    case Err(_) => None
    case Ok(None) => Some(Op.Create(t.hash, t.policy, t.expiresAt, env.nonce(k), env.createdAt(k)))
    case Ok(Some(r)) =>
      if r.policyRaw != t.policy || r.expiresAt != t.expiresAt
      then Some(Op.Update(t.hash, t.policy, t.expiresAt, env.nonce(k))) else None
  }

  function Put(c: Codec, s: Store, t: Token, env: Env, k: nat): Store {
    match Action(c, s.db, t, env, k)
    case None => s
    case Some(op) => Step(c, s, op)
  }

  predicate Counts(c: Codec, s: Store, t: Token, env: Env, k: nat) {
    var action := Action(c, s.db, t, env, k);
    action.Some? && Commit(c, s.db, action.value).Ok?
  }

  function Synced(c: Codec, s: Store, tokens: seq<Token>, env: Env): Store {
    if tokens == [] then s
    else
      var n := |tokens| - 1;
      Put(c, Synced(c, s, tokens[..n], env), tokens[n], env, n)
  }

  function Count(c: Codec, s: Store, tokens: seq<Token>, env: Env): nat {
    if tokens == [] then 0
    else
      var n := |tokens| - 1;
      Count(c, s, tokens[..n], env) + if Counts(c, Synced(c, s, tokens[..n], env), tokens[n], env, n) then 1 else 0
  }

  method SyncTo(store: BoltStore, tokens: seq<Token>, env: Env) returns (synced: nat)
    modifies store
    ensures store.View() == Synced(store.codec, old(store.View()), tokens, env)
    ensures synced == Count(store.codec, old(store.View()), tokens, env)
  {
    synced := 0;
    for k := 0 to |tokens|
      invariant store.View() == Synced(store.codec, old(store.View()), tokens[..k], env)
      invariant synced == Count(store.codec, old(store.View()), tokens[..k], env)
    {
      assert tokens[..k + 1][..k] == tokens[..k];
      var t := tokens[k];
      var existing := store.Get(t.hash);
      if existing.Err? {
        continue;
      }
      if existing.value.None? {
        var r := store.Create(t.hash, t.policy, t.expiresAt, env.nonce(k), env.createdAt(k));
        if r.Ok? {
          synced := synced + 1;
        }
      } else if existing.value.value.policyRaw != t.policy || existing.value.value.expiresAt != t.expiresAt {
        var r := store.Update(t.hash, t.policy, t.expiresAt, env.nonce(k));
        if r.Ok? {
          synced := synced + 1;
        }
      }
    }
    assert tokens[..|tokens|] == tokens;
  }

  // ---------- What a sync achieves ----------

  /** What an operator sees of a token. */
  datatype Pair = Pair(policy: string, expiresAt: string)

  function PairOf(c: Codec, db: Db, h: string): Option<Pair> {
    match Get(c, db, h)
    case Ok(Some(r)) => Some(Pair(r.policyRaw, r.expiresAt))
    case _ => None
  }

  predicate Unique(tokens: seq<Token>) {
    forall i, j :: 0 <= i < j < |tokens| ==> tokens[i].hash != tokens[j].hash
  }

  predicate Listed(tokens: seq<Token>, h: string) {
    exists i :: 0 <= i < |tokens| && tokens[i].hash == h
  }

  /** Nothing the store would refuse: neither "" is a policy nor "clear" a time; the remote policies and expiries
      are valid, and the local records of the listed tokens can be read. */
  ghost predicate Acceptable(c: Codec, db: Db, tokens: seq<Token>) {
    && Reversible(c) && !ValidPolicy(c, "") && !ValidExpiry(c, "clear")
    && forall i :: 0 <= i < |tokens| ==>
         && ValidPolicy(c, tokens[i].policy) && ValidExpiry(c, tokens[i].expiresAt)
         && Get(c, db, tokens[i].hash).Ok?
  }

  /** The remote pair, except that an empty remote expiry keeps a local one. */
  function Merged(local: Option<Pair>, t: Token): Pair {
    Pair(t.policy, if t.expiresAt == "" && local.Some? then local.value.expiresAt else t.expiresAt)
  }

  lemma {:induction false} PutUntouched(c: Codec, s: Store, t: Token, env: Env, k: nat, h: string)
    requires t.hash != h
    ensures
      var db := Put(c, s, t, env, k).db;
      (h in db <==> h in s.db) && (h in db ==> db[h] == s.db[h])
  {
    if Counts(c, s, t, env, k) {
      OthersUntouched(c, s.db, Action(c, s.db, t, env, k).value, h);
    }
  }

  lemma {:induction false} UnlistedUntouched(c: Codec, s: Store, tokens: seq<Token>, env: Env, h: string)
    requires !Listed(tokens, h)
    ensures
      var db := Synced(c, s, tokens, env).db;
      (h in db <==> h in s.db) && (h in db ==> db[h] == s.db[h])
  {
    if tokens != [] {
      var n := |tokens| - 1;
      assert tokens[n].hash != h;
      assert forall i :: 0 <= i < n ==> tokens[..n][i] == tokens[i];
      UnlistedUntouched(c, s, tokens[..n], env, h);
      PutUntouched(c, Synced(c, s, tokens[..n], env), tokens[n], env, n, h);
    }
  }

  lemma {:induction false} PutMerges(c: Codec, s: Store, t: Token, env: Env, k: nat)
    requires Acceptable(c, s.db, [t])
    ensures PairOf(c, Put(c, s, t, env, k).db, t.hash) == Some(Merged(PairOf(c, s.db, t.hash), t))
    ensures Get(c, Put(c, s, t, env, k).db, t.hash).Ok?
    ensures Counts(c, s, t, env, k) <==> PairOf(c, s.db, t.hash) != Some(Pair(t.policy, t.expiresAt))
  {
    assert [t][0] == t;
    var action := Action(c, s.db, t, env, k);
    if action.Some? {
      if action.value.Create? {
        CreatedIsRead(c, s.db, action.value, 0);
      } else {
        UpdatedIsRead(c, s.db, action.value);
      }
    }
  }

  lemma {:induction false} SameRecord(c: Codec, db: Db, db': Db, h: string)
    requires (h in db <==> h in db') && (h in db ==> db[h] == db'[h])
    ensures Get(c, db, h) == Get(c, db', h) && PairOf(c, db, h) == PairOf(c, db', h)
  {
  }

  lemma {:induction false} PrefixFacts(c: Codec, db: Db, tokens: seq<Token>)
    requires Unique(tokens) && Acceptable(c, db, tokens) && tokens != []
    ensures
      var n := |tokens| - 1;
      && Unique(tokens[..n]) && Acceptable(c, db, tokens[..n]) && Acceptable(c, db, [tokens[n]])
      && !Listed(tokens[..n], tokens[n].hash)
  {
    var n := |tokens| - 1;
    assert forall i :: 0 <= i < n ==> tokens[..n][i] == tokens[i];
    assert [tokens[n]][0] == tokens[n];
  }

  /** The last token of the list meets the store as it was at the beginning. */
  lemma {:induction false} LastMerges(c: Codec, s: Store, tokens: seq<Token>, env: Env)
    requires Unique(tokens) && Acceptable(c, s.db, tokens) && tokens != []
    ensures
      var n := |tokens| - 1;
      var (t, before) := (tokens[n], Synced(c, s, tokens[..n], env));
      && PairOf(c, Synced(c, s, tokens, env).db, t.hash) == Some(Merged(PairOf(c, s.db, t.hash), t))
      && (Counts(c, before, t, env, n) <==> PairOf(c, s.db, t.hash) != Some(Pair(t.policy, t.expiresAt)))
  {
    var n := |tokens| - 1;
    var before := Synced(c, s, tokens[..n], env);
    PrefixFacts(c, s.db, tokens);
    UnlistedUntouched(c, s, tokens[..n], env, tokens[n].hash);
    SameRecord(c, s.db, before.db, tokens[n].hash);
    assert [tokens[n]][0] == tokens[n];
    PutMerges(c, before, tokens[n], env, n);
  }

  /** Main result: every listed token ends with the remote policy, and with the remote expiry unless that is empty
      and there was a local one. */
  lemma {:induction false} ListedMerge(c: Codec, s: Store, tokens: seq<Token>, env: Env, i: nat)
    requires Unique(tokens) && Acceptable(c, s.db, tokens) && i < |tokens|
    ensures PairOf(c, Synced(c, s, tokens, env).db, tokens[i].hash)
         == Some(Merged(PairOf(c, s.db, tokens[i].hash), tokens[i]))
  {
    var n := |tokens| - 1;
    if i == n {
      LastMerges(c, s, tokens, env);
    } else {
      PrefixFacts(c, s.db, tokens);
      assert tokens[..n][i] == tokens[i];
      ListedMerge(c, s, tokens[..n], env, i);
      var before := Synced(c, s, tokens[..n], env);
      PutUntouched(c, before, tokens[n], env, n, tokens[i].hash);
      SameRecord(c, before.db, Put(c, before, tokens[n], env, n).db, tokens[i].hash);
    }
  }

  /** How many of the tokens are absent locally or differ. */
  function Differing(c: Codec, db: Db, tokens: seq<Token>): nat {
    if tokens == [] then 0
    else
      var t := tokens[|tokens| - 1];
      Differing(c, db, tokens[..|tokens| - 1])
        + if PairOf(c, db, t.hash) != Some(Pair(t.policy, t.expiresAt)) then 1 else 0
  }

  /** Main result: the number returned is the number of listed tokens that were absent or differed before. */
  lemma {:induction false} CountIsDiffering(c: Codec, s: Store, tokens: seq<Token>, env: Env)
    requires Unique(tokens) && Acceptable(c, s.db, tokens)
    ensures Count(c, s, tokens, env) == Differing(c, s.db, tokens)
  {
    if tokens != [] {
      PrefixFacts(c, s.db, tokens);
      CountIsDiffering(c, s, tokens[..|tokens| - 1], env);
      LastMerges(c, s, tokens, env);
    }
  }

  lemma {:induction false} StillAcceptable(c: Codec, s: Store, tokens: seq<Token>, env: Env)
    requires Unique(tokens) && Acceptable(c, s.db, tokens)
    ensures Acceptable(c, Synced(c, s, tokens, env).db, tokens)
  {
    forall i | 0 <= i < |tokens| ensures Get(c, Synced(c, s, tokens, env).db, tokens[i].hash).Ok? {
      ListedMerge(c, s, tokens, env, i);
    }
  }

  /** Main result: syncing the same list again changes nothing an operator sees, of any token. */
  lemma {:induction false} SyncTwice(c: Codec, s: Store, tokens: seq<Token>, env: Env, again: Env, h: string)
    requires Unique(tokens) && Acceptable(c, s.db, tokens)
    ensures
      var once := Synced(c, s, tokens, env);
      PairOf(c, Synced(c, once, tokens, again).db, h) == PairOf(c, once.db, h)
  {
    var once := Synced(c, s, tokens, env);
    if Listed(tokens, h) {
      var i :| 0 <= i < |tokens| && tokens[i].hash == h;
      StillAcceptable(c, s, tokens, env);
      ListedMerge(c, s, tokens, env, i);
      ListedMerge(c, once, tokens, again, i);
    } else {
      UnlistedUntouched(c, once, tokens, again, h);
      SameRecord(c, once.db, Synced(c, once, tokens, again).db, h);
    }
  }

  /** Tokens without a remote expiry that have a local one. */
  function Stubborn(c: Codec, db: Db, tokens: seq<Token>): nat {
    if tokens == [] then 0
    else
      var t := tokens[|tokens| - 1];
      Stubborn(c, db, tokens[..|tokens| - 1]) + if IsStubborn(c, db, t) then 1 else 0
  }

  predicate IsStubborn(c: Codec, db: Db, t: Token) {
    t.expiresAt == "" && PairOf(c, db, t.hash).Some? && PairOf(c, db, t.hash).value.expiresAt != ""
  }

  lemma {:induction false} DifferingAfter(c: Codec, db: Db, db': Db, tokens: seq<Token>)
    requires forall i :: 0 <= i < |tokens| ==>
               PairOf(c, db', tokens[i].hash) == Some(Merged(PairOf(c, db, tokens[i].hash), tokens[i]))
    ensures Differing(c, db', tokens) == Stubborn(c, db, tokens) == Stubborn(c, db', tokens)
  {
    if tokens != [] {
      var n := |tokens| - 1;
      assert forall i :: 0 <= i < n ==> tokens[..n][i] == tokens[i];
      DifferingAfter(c, db, db', tokens[..n]);
      assert PairOf(c, db', tokens[n].hash) == Some(Merged(PairOf(c, db, tokens[n].hash), tokens[n]));
    }
  }

  /** Main result: a second sync still reports the tokens whose local expiry an empty remote one cannot take away,
      and so does every later one: the count comes to rest at zero exactly when there is no such token. */
  lemma {:induction false} CountNeverSettles(c: Codec, s: Store, tokens: seq<Token>, env: Env, again: Env)
    requires Unique(tokens) && Acceptable(c, s.db, tokens)
    ensures
      var once := Synced(c, s, tokens, env);
      && Count(c, once, tokens, again) == Stubborn(c, s.db, tokens)
      && Stubborn(c, once.db, tokens) == Stubborn(c, s.db, tokens)
      && Acceptable(c, once.db, tokens)
  {
    var once := Synced(c, s, tokens, env);
    StillAcceptable(c, s, tokens, env);
    CountIsDiffering(c, once, tokens, again);
    forall i | 0 <= i < |tokens|
      ensures PairOf(c, once.db, tokens[i].hash) == Some(Merged(PairOf(c, s.db, tokens[i].hash), tokens[i]))
    {
      ListedMerge(c, s, tokens, env, i);
    }
    DifferingAfter(c, s.db, once.db, tokens);
  }
}
