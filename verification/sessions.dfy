/** Sessions: signed tokens, sliding expiry and revocation over a key-value store. Time is an integer clock that
    never runs backwards; a call reads it as often as the code does. */
module Sessions {
  import opened JsonValues

  // ----- token signing -----

  /** HMAC under the signing key and the base64 codec, as given functions. */
  datatype Crypto = Crypto(
    mac: string -> seq<bv8>,
    encode: seq<bv8> -> string,
    decode: string -> Option<seq<bv8>>)

  predicate Lacks(text: string, c: char) {
    forall k :: 0 <= k < |text| ==> text[k] != c
  }

  /** All that is assumed: decoding undoes encoding, and the codec's alphabet has no dot. */
  ghost predicate Sane(crypto: Crypto) {
    forall bytes :: crypto.decode(crypto.encode(bytes)) == Some(bytes) && Lacks(crypto.encode(bytes), '.')
  }

  function Sign(crypto: Crypto, token: string): string {
    token + "." + crypto.encode(crypto.mac(token))
  }

  /** `str::split` */
  function SplitOn(text: string, c: char): (r: seq<string>)
    ensures |r| > 0
  {
    if text == "" then [""]
    else
      var rest := SplitOn(text[1..], c);
      if text[0] == c then [""] + rest else [[text[0]] + rest[0]] + rest[1..]
  }

  /** `verify`: the signature must be the code of the presented token; `None` when it does not decode. */
  function Verify(crypto: Crypto, signed: string, plain: string): Option<bool> {
    var parts := SplitOn(signed, '.');
    if |parts| != 2 then Some(false)
    else
      var actual := crypto.decode(parts[1]);
      if actual.None? then None else Some(crypto.mac(plain) == actual.value)
  }

  lemma {:induction false} SplitOnce(a: string, b: string, c: char)
    requires Lacks(a, c) && Lacks(b, c)
    ensures SplitOn(a + [c] + b, c) == [a, b]
    decreases |a|
  {
    if a == "" {
      SplitNever(b, c);
      assert a + [c] + b == [c] + b && ([c] + b)[1..] == b;
    } else {
      SplitOnce(a[1..], b, c);
      assert (a + [c] + b)[1..] == a[1..] + [c] + b;
      assert [a[0]] + a[1..] == a;
    }
  }

  lemma {:induction false} SplitNever(b: string, c: char)
    requires Lacks(b, c)
    ensures SplitOn(b, c) == [b]
  {
    if b != "" {
      SplitNever(b[1..], c);
      assert [b[0]] + b[1..] == b;
    }
  }

  /** A signature verifies exactly the tokens with the same code; it never fails to decode. */
  lemma SignVerifies(crypto: Crypto, token: string, plain: string)
    requires Sane(crypto) && Lacks(token, '.')
    ensures Verify(crypto, Sign(crypto, token), plain) == Some(crypto.mac(plain) == crypto.mac(token))
  {
    SplitOnce(token, crypto.encode(crypto.mac(token)), '.');
  }

  lemma {:induction false} SplitCounts(text: string, c: char)
    ensures |SplitOn(text, c)| == 1 + multiset(text)[c]
  {
    if text != "" {
      SplitCounts(text[1..], c);
      assert text == [text[0]] + text[1..];
    }
  }

  /** Of any text, `verify` judges what stands behind its only dot, and the token is not looked at; a text without a dot
      or with several does not verify. */
  lemma VerifyExact(crypto: Crypto, signed: string, plain: string)
    ensures multiset(signed)['.'] != 1 ==> Verify(crypto, signed, plain) == Some(false)
    ensures forall head, tail :: Lacks(head, '.') && Lacks(tail, '.') && signed == head + "." + tail ==>
      Verify(crypto, signed, plain) ==
        match crypto.decode(tail) {
          case None => None
          case Some(bytes) => Some(bytes == crypto.mac(plain))
        }
  {
    SplitCounts(signed, '.');
    forall head, tail | Lacks(head, '.') && Lacks(tail, '.') && signed == head + "." + tail
      ensures SplitOn(signed, '.') == [head, tail]
    {
      SplitOnce(head, tail, '.');
    }
  }

  // ----- sessions -----

  datatype Config = Config(maxAge: int, window: int, sliding: bool, crypto: Crypto)

  datatype Session = Session(
    id: string, user: string, token: string,
    createdAt: int, expiresAt: int, lastActiveAt: int, revoked: bool)
  {
    /** `is_valid` */
    predicate IsValid(now: int) {
      !revoked && now < expiresAt
    }
  }

  type Store = map<string, Session>

  function Prefix(user: string): string {
    "session:" + user + ":"
  }

  /** The id of a new session: the user and the first eight characters of the token. */
  function SessionId(user: string, token: string): string
    requires |token| >= 8
  {
    Prefix(user) + token[..8]
  }

  function NewSession(cfg: Config, user: string, token: string, now: int): Session
    requires |token| >= 8
  {
    Session(SessionId(user, token), user, Sign(cfg.crypto, token), now, now + cfg.maxAge, now, false)
  }

  function Extend(cfg: Config, store: Store, s: Session, now: int): Store {
    if s.expiresAt - now < cfg.window
    then store[s.id := s.(lastActiveAt := now, expiresAt := now + cfg.maxAge)]
    else store
  }

  datatype Lookup = Found(session: Session) | NotFound | InvalidToken

  /** The search of `get_session`, from the `k`-th listed key on. The first unrevoked session whose signature fits
      decides, valid or not; a valid one is extended at the instant `later`. */
  function GetFrom(cfg: Config, store: Store, keys: seq<string>, k: nat, token: string, now: int,
        later: int): (Lookup, Store)
    requires k <= |keys|
    decreases |keys| - k
  {
    if k == |keys| then (NotFound, store)
    else if keys[k] !in store || store[keys[k]].revoked then GetFrom(cfg, store, keys, k + 1, token, now, later)
    else
      var s := store[keys[k]];
      var fits := Verify(cfg.crypto, s.token, token);
      if fits.None? then (InvalidToken, store)
      else if !fits.value then GetFrom(cfg, store, keys, k + 1, token, now, later)
      else if !s.IsValid(now) then (NotFound, store)
      else (Found(s), if cfg.sliding then Extend(cfg, store, s, later) else store)
  }

  function Revoke(store: Store, id: string): Store {
    if id in store && !store[id].revoked then store[store[id].id := store[id].(revoked := true)] else store
  }

  /** The loop of `revoke_all_sessions` over the listed keys, and how many it revoked. */
  function RevokeKeys(store: Store, keys: seq<string>): (Store, nat) {
    if keys == [] then (store, 0)
    else
      var (earlier, count) := RevokeKeys(store, keys[..|keys| - 1]);
      var key := keys[|keys| - 1];
      (Revoke(earlier, key), if key in earlier && !earlier[key].revoked then count + 1 else count)
  }

  /** `list_keys`: the keys with the prefix, each once, in whatever order the store lists them. */
  ghost predicate Lists(store: Store, prefix: string, keys: seq<string>) {
    && (forall a, b :: 0 <= a < b < |keys| ==> keys[a] != keys[b])
    && (forall key :: key in keys <==> key in store && prefix <= key)
  }

  // ----- the manager -----

  class SessionManager {
    var store: Store
    const cfg: Config

    constructor (cfg: Config)
      ensures store == map[] && this.cfg == cfg
    {
      this.cfg := cfg;
      store := map[];
    }

    method CreateSession(user: string, token: string, now: int) returns (session: Session)
      requires |token| >= 8
      modifies this`store
      ensures session == NewSession(cfg, user, token, now)
      ensures store == old(store)[session.id := session]
    {
      var id := "session:" + user + ":" + token[..8];
      session := Session(id, user, Sign(cfg.crypto, token), now, now + cfg.maxAge, now, false);
      store := store[id := session];
    }

    method GetSession(keys: seq<string>, token: string, now: int, later: int) returns (r: Lookup)
      modifies this`store
      ensures (r, store) == GetFrom(cfg, old(store), keys, 0, token, now, later)
    {
      for k := 0 to |keys|
        invariant store == old(store)
        invariant GetFrom(cfg, store, keys, 0, token, now, later) == GetFrom(cfg, store, keys, k, token, now, later)
      {
        if keys[k] in store && !store[keys[k]].revoked {
          var session := store[keys[k]];
          var fits := Verify(cfg.crypto, session.token, token);
          if fits.None? {
            return InvalidToken;
          }
          if fits.value {
            if !session.IsValid(now) {
              return NotFound;
            }
            if cfg.sliding {
              ExtendSession(session, later);
            }
            return Found(session);
          }
        }
      }
      r := NotFound;
    }

    method ExtendSession(session: Session, now: int)
      modifies this`store
      ensures store == Extend(cfg, old(store), session, now)
    {
      var timeLeft := session.expiresAt - now;
      if timeLeft < cfg.window {
        store := store[session.id := session.(lastActiveAt := now, expiresAt := now + cfg.maxAge)];
      }
    }

    method RevokeSession(id: string)
      modifies this`store
      ensures store == Revoke(old(store), id)
    {
      if id in store {
        if store[id].revoked {
          return;
        }
        var updated := store[id].(revoked := true);
        store := store[updated.id := updated];
      }
    }

    method RevokeAllSessions(keys: seq<string>) returns (count: nat)
      modifies this`store
      ensures (store, count) == RevokeKeys(old(store), keys)
    {
      count := 0;
      for k := 0 to |keys|
        invariant (store, count) == RevokeKeys(old(store), keys[..k])
      {
        assert keys[..k + 1][..k] == keys[..k];
        var key := keys[k];
        if key in store {
          var session := store[key];
          if !session.revoked {
            store := store[session.id := session.(revoked := true)];
            count := count + 1;
          }
        }
      }
      assert keys[..|keys|] == keys;
    }
  }

  // ----- what every operation keeps -----

  /** Each record is filed under its id, made of its user and a token prefix without ':'; its token is a signature;
      and it expires no later than the maximal age from now. */
  ghost predicate Valid(cfg: Config, store: Store, now: int) {
    forall id :: id in store ==> ValidRecord(cfg, id, store[id], now)
  }

  ghost predicate ValidRecord(cfg: Config, id: string, s: Session, now: int) {
    && s.id == id && s.expiresAt <= now + cfg.maxAge
    && (exists token :: Signs(cfg, s.token, token))
    && (exists tail :: IdOf(id, s.user, tail))
  }

  ghost predicate Signs(cfg: Config, signed: string, token: string) {
    Lacks(token, '.') && signed == Sign(cfg.crypto, token)
  }

  ghost predicate IdOf(id: string, user: string, tail: string) {
    Lacks(tail, ':') && id == Prefix(user) + tail
  }

  /** Sessions are never dropped or re-issued, revocation is never taken back, and expiry never moves back. */
  ghost predicate Keeps(before: Store, after: Store) {
    forall id :: id in before ==>
      && id in after && after[id].user == before[id].user && after[id].token == before[id].token
      && after[id].createdAt == before[id].createdAt
      && (before[id].revoked ==> after[id].revoked)
      && before[id].expiresAt <= after[id].expiresAt
  }

  /** What is expired at `now` stays as it is. */
  ghost predicate KeepsExpired(before: Store, after: Store, now: int) {
    forall id :: id in before && before[id].expiresAt <= now ==>
      id in after && after[id].expiresAt == before[id].expiresAt
  }

  lemma CreateKeeps(cfg: Config, store: Store, user: string, token: string, now: int)
    requires Valid(cfg, store, now) && |token| >= 8 && Lacks(token, '.') && Lacks(token, ':')
    requires SessionId(user, token) !in store
    ensures var s := NewSession(cfg, user, token, now); var after := store[s.id := s];
      Valid(cfg, after, now) && Keeps(store, after) && KeepsExpired(store, after, now)
  {
    var s := NewSession(cfg, user, token, now);
    hide Sign, Prefix;
    assert Signs(cfg, s.token, token);
    assert IdOf(s.id, user, token[..8]);
  }

  lemma ExtendKeeps(cfg: Config, store: Store, id: string, now: int, later: int)
    requires Valid(cfg, store, now) && id in store && now < store[id].expiresAt && now <= later
    ensures var after := Extend(cfg, store, store[id], later);
      Valid(cfg, after, later) && Keeps(store, after) && KeepsExpired(store, after, now)
  {
    hide Signs, IdOf;
    assert ValidRecord(cfg, id, store[id], now);
  }

  lemma LaterValid(cfg: Config, store: Store, now: int, later: int)
    requires Valid(cfg, store, now) && now <= later
    ensures Valid(cfg, store, later)
  {
    hide Signs, IdOf;
    forall id | id in store ensures ValidRecord(cfg, id, store[id], later) {
      assert ValidRecord(cfg, id, store[id], now);
    }
  }

  lemma {:induction false} GetKeeps(cfg: Config, store: Store, keys: seq<string>, k: nat, token: string, now: int,
        later: int)
    requires Valid(cfg, store, now) && now <= later && k <= |keys|
    ensures var after := GetFrom(cfg, store, keys, k, token, now, later).1;
      Valid(cfg, after, later) && Keeps(store, after) && KeepsExpired(store, after, now)
    decreases |keys| - k
  {
    hide Valid, Keeps, KeepsExpired, Verify, Extend;
    LaterValid(cfg, store, now, later);
    KeepsItself(store, now);
    if k < |keys| {
      GetKeeps(cfg, store, keys, k + 1, token, now, later);
      if keys[k] in store && store[keys[k]].IsValid(now) {
        ExtendKeeps(cfg, store, keys[k], now, later);
      }
    }
  }

  lemma KeepsItself(store: Store, now: int)
    ensures Keeps(store, store) && KeepsExpired(store, store, now)
  {
  }

  lemma RevokeKeeps(cfg: Config, store: Store, id: string, now: int)
    requires Valid(cfg, store, now)
    ensures id in store ==> Revoke(store, id).Keys == store.Keys && Revoke(store, id)[id] == store[id].(revoked := true)
    ensures Valid(cfg, Revoke(store, id), now) && Keeps(store, Revoke(store, id))
    ensures KeepsExpired(store, Revoke(store, id), now)
    ensures forall x :: x in store && x != id ==> Revoke(store, id)[x] == store[x]
    ensures Revoke(store, id).Keys == store.Keys
  {
    hide Signs, IdOf;
    if id in store {
      assert ValidRecord(cfg, id, store[id], now);
    }
  }

  /** Revoking the listed keys revokes exactly those. */
  lemma {:induction false} RevokeKeysPointwise(cfg: Config, store: Store, keys: seq<string>, now: int)
    requires Valid(cfg, store, now)
    ensures var after := RevokeKeys(store, keys).0; Valid(cfg, after, now) && Pointwise(store, keys, after)
  {
    hide Valid;
    if keys != [] {
      var init, key := keys[..|keys| - 1], keys[|keys| - 1];
      RevokeKeysPointwise(cfg, store, init, now);
      var earlier := RevokeKeys(store, init).0;
      RevokeKeeps(cfg, earlier, key, now);
      FiledUnderId(cfg, earlier, key, now);
      assert keys == init + [key];
      PointwiseStep(store, init, earlier, key, Revoke(earlier, key));
    }
  }

  ghost predicate Pointwise(store: Store, keys: seq<string>, after: Store) {
    && after.Keys == store.Keys
    && forall id :: id in store ==> after[id] == if id in keys then store[id].(revoked := true) else store[id]
  }

  lemma PointwiseStep(store: Store, init: seq<string>, earlier: Store, key: string, after: Store)
    requires Pointwise(store, init, earlier) && after.Keys == earlier.Keys
    requires forall x :: x in earlier && x != key ==> after[x] == earlier[x]
    requires key in earlier ==> after[key] == earlier[key].(revoked := true)
    ensures Pointwise(store, init + [key], after)
  {
    forall id | id in store ensures after[id] == if id in init + [key] then store[id].(revoked := true) else store[id] {
      assert id in init + [key] <==> id in init || id == key;
    }
  }

  lemma PointwiseKeeps(store: Store, keys: seq<string>, after: Store, now: int)
    requires Pointwise(store, keys, after)
    ensures Keeps(store, after) && KeepsExpired(store, after, now)
  {
  }

  lemma NothingUnrevoked(store: Store)
    ensures |Unrevoked(store, [])| == 0
  {
    assert Unrevoked(store, []) == {};
  }

  lemma UnrevokedStep(store: Store, init: seq<string>, key: string)
    requires key !in init
    ensures |Unrevoked(store, init + [key])|
      == |Unrevoked(store, init)| + if key in store && !store[key].revoked then 1 else 0
  {
    assert forall id :: id in init + [key] <==> id in init || id == key;
    assert Unrevoked(store, init + [key]) ==
      if key in store && !store[key].revoked then Unrevoked(store, init) + {key} else Unrevoked(store, init);
  }

  /** The count is the number of listed sessions that were not revoked. */
  lemma {:induction false} RevokeKeysCounts(cfg: Config, store: Store, keys: seq<string>, now: int)
    requires Valid(cfg, store, now)
    requires forall a, b :: 0 <= a < b < |keys| ==> keys[a] != keys[b]
    ensures RevokeKeys(store, keys).1 == |Unrevoked(store, keys)|
  {
    hide Valid, Revoke, Unrevoked;
    if keys == [] {
      NothingUnrevoked(store);
    } else {
      var init, key := keys[..|keys| - 1], keys[|keys| - 1];
      RevokeKeysCounts(cfg, store, init, now);
      RevokeKeysPointwise(cfg, store, init, now);
      assert keys == init + [key] && key !in init;
      UnrevokedStep(store, init, key);
    }
  }

  lemma FiledUnderId(cfg: Config, store: Store, id: string, now: int)
    requires Valid(cfg, store, now)
    ensures id in store ==> store[id].id == id
  {
    hide Signs, IdOf;
    assert id in store ==> ValidRecord(cfg, id, store[id], now);
  }

  function Unrevoked(store: Store, keys: seq<string>): set<string> {
    set id | id in store && id in keys && !store[id].revoked
  }

  // ----- which sessions a prefix selects -----

  lemma SharedHead(head: string, a: string, b: string)
    ensures head + a <= head + b <==> a <= b
  {
    if head + a <= head + b {
      assert a == (head + a)[|head|..] && b == (head + b)[|head|..];
      assert b[..|a|] == (head + b)[|head|..|head| + |a|];
      assert (head + a)[|head|..] == (head + b)[..|head| + |a|][|head|..];
    }
    if a <= b {
      assert (head + b)[..|head| + |a|] == head + b[..|a|];
    }
  }

  /** A name followed by ':' begins `owner:tail` iff it is the owner's name, or continues into it after a ':'. */
  lemma NameBegins(user: string, owner: string, tail: string)
    requires Lacks(tail, ':')
    ensures user + ":" <= owner + ":" + tail <==> owner == user || user + ":" <= owner
  {
    var rest := owner + ":" + tail;
    if user + ":" <= rest {
      assert rest[|user|] == (user + ":")[|user|] == ':';
      assert forall x :: |owner| < x < |rest| ==> rest[x] == tail[x - |owner| - 1] != ':';
      assert user == (user + ":")[..|user|] == rest[..|user|] == owner[..|user|];
      if |user| < |owner| {
        assert owner[|user|] == rest[|user|];
        assert owner[..|user| + 1] == user + ":";
      } else {
        assert owner == user;
      }
    }
    if owner == user {
      assert rest[..|user| + 1] == user + ":";
    }
    if user + ":" <= owner {
      assert rest[..|user| + 1] == owner[..|user| + 1];
    }
  }

  /** The prefix of `user` selects the sessions of that user and of the users whose name continues it after a ':'. */
  lemma PrefixSelects(id: string, owner: string, tail: string, user: string)
    requires IdOf(id, owner, tail)
    ensures Prefix(user) <= id <==> owner == user || user + ":" <= owner
  {
    assert id == "session:" + (owner + ":" + tail);
    assert Prefix(user) == "session:" + (user + ":");
    SharedHead("session:", user + ":", owner + ":" + tail);
    NameBegins(user, owner, tail);
  }

  /** Another user's name continues `user` after a ':'. */
  predicate Shadows(user: string, owner: string) {
    owner != user && user + ":" <= owner
  }

  /** `revoke_all_sessions` returns the number of sessions it revoked; it revokes every session of the user, leaves
      every user whose name does not continue the user's after a ':' alone, and so is exact iff no such user has an
      unrevoked session. */
  lemma RevokeAllExactIff(cfg: Config, store: Store, user: string, keys: seq<string>, now: int)
    requires Valid(cfg, store, now) && Lists(store, Prefix(user), keys)
    ensures var (after, count) := RevokeKeys(store, keys);
      && after.Keys == store.Keys
      && (forall id :: id in store && store[id].user == user ==> after[id] == store[id].(revoked := true))
      && (forall id :: id in store && !Shadows(user, store[id].user) && store[id].user != user ==>
            after[id] == store[id])
      && count == |set id | id in store && !store[id].revoked && after[id].revoked|
      && ((forall id :: id in store && store[id].user != user ==> after[id] == store[id])
          <==> forall id :: id in store && !store[id].revoked ==> !Shadows(user, store[id].user))
  {
    RevokeKeysPointwise(cfg, store, keys, now);
    RevokeKeysCounts(cfg, store, keys, now);
    forall id | id in store ensures id in keys <==> store[id].user == user || Shadows(user, store[id].user) {
      assert ValidRecord(cfg, id, store[id], now);
      var tail :| IdOf(id, store[id].user, tail);
      PrefixSelects(id, store[id].user, tail, user);
    }
    var (after, _) := RevokeKeys(store, keys);
    assert Unrevoked(store, keys) == set id | id in store && !store[id].revoked && after[id].revoked;
  }

  /** A user name without ':' shadows nobody and is shadowed by nobody of that kind. */
  lemma PlainNamesDoNotShadow(user: string, owner: string)
    requires Lacks(owner, ':')
    ensures !Shadows(user, owner)
  {
    assert (user + ":")[|user|] == ':';
  }

  // ----- runs -----

  datatype Operation =
    | Create(user: string, token: string)
    | Get(token: string, keys: seq<string>, later: int)
    | RevokeOne(id: string)
    | RevokeAll(user: string, keys: seq<string>)

  datatype Event = Event(op: Operation, now: int)

  /** The last instant of the call. */
  function EndOf(e: Event): int {
    if e.op.Get? then e.op.later else e.now
  }

  /** The caller's side: tokens without '.' and ':', a session id never issued before, the listing the store gives. */
  ghost predicate Proper(store: Store, e: Event) {
    match e.op
    case Create(user, token) =>
      |token| >= 8 && Lacks(token, '.') && Lacks(token, ':') && SessionId(user, token) !in store
    case Get(_, keys, later) => Lists(store, "session:", keys) && e.now <= later
    case RevokeOne(_) => true
    case RevokeAll(user, keys) => Lists(store, Prefix(user), keys)
  }

  function Apply(cfg: Config, store: Store, e: Event): Store
    requires e.op.Create? ==> |e.op.token| >= 8
  {
    match e.op
    case Create(user, token) => var s := NewSession(cfg, user, token, e.now); store[s.id := s]
    case Get(token, keys, later) => GetFrom(cfg, store, keys, 0, token, e.now, later).1
    case RevokeOne(id) => Revoke(store, id)
    case RevokeAll(_, keys) => RevokeKeys(store, keys).0
  }

  /** What a call of `get_session` answers. */
  function Answer(cfg: Config, store: Store, e: Event): Lookup
    requires e.op.Get?
  {
    GetFrom(cfg, store, e.op.keys, 0, e.op.token, e.now, e.op.later).0
  }

  /** A sequential run: the stores between the calls, on a clock that never decreases. */
  ghost predicate IsRun(cfg: Config, stores: seq<Store>, events: seq<Event>) {
    && |stores| == |events| + 1 && stores[0] == map[]
    && (forall k :: 0 <= k < |events| ==>
          Proper(stores[k], events[k]) && stores[k + 1] == Apply(cfg, stores[k], events[k]))
    && (forall k :: 0 <= k < |events| - 1 ==> EndOf(events[k]) <= events[k + 1].now)
  }

  lemma StepKeeps(cfg: Config, store: Store, e: Event)
    requires Valid(cfg, store, e.now) && Proper(store, e)
    ensures var after := Apply(cfg, store, e);
      Valid(cfg, after, EndOf(e)) && Keeps(store, after) && KeepsExpired(store, after, e.now)
  {
    hide Valid, Keeps, KeepsExpired, GetFrom, RevokeKeys, Revoke;
    match e.op
    case Create(user, token) => CreateKeeps(cfg, store, user, token, e.now);
    case Get(token, keys, later) => GetKeeps(cfg, store, keys, 0, token, e.now, later);
    case RevokeOne(id) => RevokeKeeps(cfg, store, id, e.now);
    case RevokeAll(_, keys) =>
      RevokeKeysPointwise(cfg, store, keys, e.now);
      PointwiseKeeps(store, keys, RevokeKeys(store, keys).0, e.now);
  }

  lemma {:induction false} RunValid(cfg: Config, stores: seq<Store>, events: seq<Event>, k: nat, now: int)
    requires IsRun(cfg, stores, events) && k < |stores|
    requires (k > 0 ==> EndOf(events[k - 1]) <= now)
    ensures Valid(cfg, stores[k], now)
    decreases k
  {
    hide Keeps, KeepsExpired, Apply, Proper;
    if k > 0 {
      RunValid(cfg, stores, events, k - 1, events[k - 1].now);
      StepKeeps(cfg, stores[k - 1], events[k - 1]);
      LaterValid(cfg, stores[k], EndOf(events[k - 1]), now);
    }
  }

  lemma RunStep(cfg: Config, stores: seq<Store>, events: seq<Event>, k: nat)
    requires IsRun(cfg, stores, events) && k < |events|
    ensures Valid(cfg, stores[k], events[k].now) && Proper(stores[k], events[k])
    ensures stores[k + 1] == Apply(cfg, stores[k], events[k])
    ensures Keeps(stores[k], stores[k + 1]) && KeepsExpired(stores[k], stores[k + 1], events[k].now)
  {
    hide Valid, Keeps, KeepsExpired, Apply, Proper;
    RunValid(cfg, stores, events, k, events[k].now);
    StepKeeps(cfg, stores[k], events[k]);
  }

  /** The session under `key` is the kind `get_session` stops at: unrevoked and signed for the presented token's
      code. */
  predicate Fits(cfg: Config, store: Store, key: string, token: string) {
    key in store && !store[key].revoked && Verify(cfg.crypto, store[key].token, token) == Some(true)
  }

  predicate Served(cfg: Config, store: Store, s: Session, token: string, now: int) {
    now < s.expiresAt && s.id in store && s == store[s.id] && Fits(cfg, store, s.id, token)
  }

  /** From position `k` on, each session that could be served stands behind an expired one that fits. */
  ghost predicate NoneServed(cfg: Config, store: Store, keys: seq<string>, k: nat, token: string, now: int) {
    forall x :: k <= x < |keys| && Fits(cfg, store, keys[x], token) && now < store[keys[x]].expiresAt ==>
      exists y :: k <= y < x && Fits(cfg, store, keys[y], token) && store[keys[y]].expiresAt <= now
  }

  /** Whatever `get_session` returns is filed, neither revoked nor expired, and signed for the presented token's code;
      it answers that there is none only if each such session stands behind an expired one that fits; and it never
      trips over a malformed signature. */
  lemma {:induction false} GetSound(cfg: Config, store: Store, keys: seq<string>, k: nat, token: string, now: int,
        later: int)
    requires Sane(cfg.crypto) && Valid(cfg, store, now) && k <= |keys|
    ensures var r := GetFrom(cfg, store, keys, k, token, now, later).0;
      && !r.InvalidToken?
      && (r.Found? ==> Served(cfg, store, r.session, token, now))
      && (r.NotFound? ==> NoneServed(cfg, store, keys, k, token, now))
    decreases |keys| - k
  {
    hide Verify, Sane, Valid;
    if k < |keys| {
      GetSound(cfg, store, keys, k + 1, token, now, later);
      if keys[k] in store {
        RecordVerifies(cfg, store, keys[k], token, now);
      }
    }
  }

  lemma RecordVerifies(cfg: Config, store: Store, id: string, token: string, now: int)
    requires Sane(cfg.crypto) && Valid(cfg, store, now) && id in store
    ensures Verify(cfg.crypto, store[id].token, token).Some? && store[id].id == id
  {
    hide Sane, IdOf, Verify, Sign;
    assert ValidRecord(cfg, id, store[id], now);
    var issued :| Signs(cfg, store[id].token, issued);
    SignVerifies(cfg.crypto, issued, token);
  }

  /** Revocation is permanent: once revoked, a session stays revoked, and no later `get_session` returns it. */
  lemma {:induction false} RevocationIsPermanent(cfg: Config, stores: seq<Store>, events: seq<Event>, i: nat, j: nat,
        id: string)
    requires Sane(cfg.crypto) && IsRun(cfg, stores, events) && i <= j < |stores| && id in stores[i]
    requires stores[i][id].revoked
    ensures id in stores[j] && stores[j][id].revoked
    ensures j < |events| && events[j].op.Get? && Answer(cfg, stores[j], events[j]).Found? ==>
      Answer(cfg, stores[j], events[j]).session.id != id
    decreases j
  {
    hide IsRun, Proper, Apply, Valid, GetFrom, Sane;
    if i < j {
      RevocationIsPermanent(cfg, stores, events, i, j - 1, id);
      RunLength(cfg, stores, events);
      RunStep(cfg, stores, events, j - 1);
    }
    AnswerValid(cfg, stores, events, j);
  }

  lemma RunLength(cfg: Config, stores: seq<Store>, events: seq<Event>)
    requires IsRun(cfg, stores, events)
    ensures |stores| == |events| + 1
  {
  }

  lemma AnswerValid(cfg: Config, stores: seq<Store>, events: seq<Event>, k: nat)
    requires Sane(cfg.crypto) && IsRun(cfg, stores, events)
    ensures k < |events| && events[k].op.Get? && Answer(cfg, stores[k], events[k]).Found? ==>
      var s := Answer(cfg, stores[k], events[k]).session;
      s.id in stores[k] && s == stores[k][s.id] && s.IsValid(events[k].now)
  {
    if k < |events| && events[k].op.Get? {
      RunStep(cfg, stores, events, k);
      GetSound(cfg, stores[k], events[k].op.keys, 0, events[k].op.token, events[k].now, events[k].op.later);
    }
  }

  /** Every stored expiry never decreases over a run, and never exceeds the maximal age from the last call's end. */
  lemma {:induction false} ExpiryBounded(cfg: Config, stores: seq<Store>, events: seq<Event>, i: nat, j: nat,
        id: string)
    requires IsRun(cfg, stores, events) && i <= j < |stores| && id in stores[i]
    ensures id in stores[j] && stores[i][id].expiresAt <= stores[j][id].expiresAt
    ensures j > 0 && stores[j][id].expiresAt <= EndOf(events[j - 1]) + cfg.maxAge
    decreases j
  {
    hide Proper, Apply, Valid;
    if i < j {
      ExpiryBounded(cfg, stores, events, i, j - 1, id);
      RunStep(cfg, stores, events, j - 1);
    }
    RunValid(cfg, stores, events, j, EndOf(events[j - 1]));
    RecordBound(cfg, stores[j], id, EndOf(events[j - 1]));
  }

  lemma RecordBound(cfg: Config, store: Store, id: string, now: int)
    requires Valid(cfg, store, now) && id in store
    ensures store[id].expiresAt <= now + cfg.maxAge
  {
    hide Signs, IdOf;
    assert ValidRecord(cfg, id, store[id], now);
  }

  /** A session that has expired when a call begins is never extended by that call or a later one, and never
      returned. */
  lemma {:induction false} ExpiredForGood(cfg: Config, stores: seq<Store>, events: seq<Event>, i: nat, j: nat,
        id: string)
    requires Sane(cfg.crypto) && IsRun(cfg, stores, events) && i <= j < |events|
    requires id in stores[i] && stores[i][id].expiresAt <= events[i].now
    ensures id in stores[j] && stores[j][id].expiresAt == stores[i][id].expiresAt && events[i].now <= events[j].now
    ensures id in stores[j + 1] && stores[j + 1][id].expiresAt == stores[i][id].expiresAt
    ensures events[j].op.Get? && Answer(cfg, stores[j], events[j]).Found? ==>
      Answer(cfg, stores[j], events[j]).session.id != id
    decreases j
  {
    hide Proper, Apply, Valid, GetFrom, Sane;
    RunStep(cfg, stores, events, j);
    if i < j {
      ExpiredForGood(cfg, stores, events, i, j - 1, id);
      ClockRuns(cfg, stores, events, j - 1);
    }
    AnswerValid(cfg, stores, events, j);
  }

  lemma ClockRuns(cfg: Config, stores: seq<Store>, events: seq<Event>, k: nat)
    requires IsRun(cfg, stores, events) && k + 1 < |events|
    ensures events[k].now <= events[k + 1].now
  {
    assert Proper(stores[k], events[k]);
  }

  // ----- how old a session can get -----

  /** The call is a `get_session` that extends the session at an instant after its creation. */
  predicate ExtendsAt(cfg: Config, store: Store, e: Event, id: string) {
    e.op.Get? && cfg.sliding &&
    var r := Answer(cfg, store, e);
    r.Found? && r.session.id == id && r.session.expiresAt - e.op.later < cfg.window && r.session.createdAt < e.op.later
  }

  /** A session expires the maximal age after it was last active, which is when it was created or last extended. */
  ghost predicate Aged(cfg: Config, store: Store) {
    forall id :: id in store ==>
      store[id].expiresAt == store[id].lastActiveAt + cfg.maxAge && store[id].createdAt <= store[id].lastActiveAt
  }

  predicate Prolonged(store: Store, id: string) {
    id in store && store[id].lastActiveAt > store[id].createdAt
  }

  /** One call prolongs the sessions that were prolonged before it, and the one it extends. */
  ghost predicate ProlongsWhatItExtends(cfg: Config, store: Store, e: Event, after: Store) {
    && Aged(cfg, after)
    && forall id :: id in after ==> (Prolonged(after, id) <==> Prolonged(store, id) || ExtendsAt(cfg, store, e, id))
  }

  /** `get_session` changes the store by extending the session it returns, if anything. */
  lemma {:induction false} GetExtends(cfg: Config, store: Store, keys: seq<string>, k: nat, token: string, now: int,
        later: int)
    requires k <= |keys|
    ensures var (r, after) := GetFrom(cfg, store, keys, k, token, now, later);
      && after == (if r.Found? && cfg.sliding then Extend(cfg, store, r.session, later) else store)
      && (r.Found? ==> exists key :: key in store && store[key] == r.session)
    decreases |keys| - k
  {
    hide Verify, Extend;
    if k < |keys| {
      GetExtends(cfg, store, keys, k + 1, token, now, later);
    }
  }

  lemma GetProlongs(cfg: Config, store: Store, e: Event)
    requires Valid(cfg, store, e.now) && Proper(store, e) && e.op.Get? && Aged(cfg, store)
    ensures ProlongsWhatItExtends(cfg, store, e, Apply(cfg, store, e))
  {
    hide GetFrom, Valid;
    GetExtends(cfg, store, e.op.keys, 0, e.op.token, e.now, e.op.later);
    var r := Answer(cfg, store, e);
    if r.Found? {
      var key :| key in store && store[key] == r.session;
      FiledUnderId(cfg, store, key, e.now);
      RecordBound(cfg, store, key, e.now);
    }
  }

  lemma StepProlongs(cfg: Config, store: Store, e: Event)
    requires Valid(cfg, store, e.now) && Proper(store, e) && Aged(cfg, store)
    ensures ProlongsWhatItExtends(cfg, store, e, Apply(cfg, store, e))
  {
    hide Valid, GetFrom, RevokeKeys, Revoke;
    match e.op
    case Create(_, _) =>
    case Get(_, _, _) => GetProlongs(cfg, store, e);
    case RevokeOne(id) => RevokeKeeps(cfg, store, id, e.now);
    case RevokeAll(_, keys) => RevokeKeysPointwise(cfg, store, keys, e.now);
  }

  ghost predicate NeverExtended(cfg: Config, stores: seq<Store>, events: seq<Event>, j: nat, id: string)
    requires |stores| == |events| + 1 && j < |stores|
  {
    forall k: nat :: k < j ==> !ExtendsAt(cfg, stores[k], events[k], id)
  }

  lemma {:induction false} RunProlongs(cfg: Config, stores: seq<Store>, events: seq<Event>, j: nat)
    requires IsRun(cfg, stores, events) && j < |stores|
    ensures Aged(cfg, stores[j])
    ensures forall id :: id in stores[j] ==> (Prolonged(stores[j], id) <==> !NeverExtended(cfg, stores, events, j, id))
    decreases j
  {
    hide Proper, Apply, Valid, ExtendsAt, Keeps, KeepsExpired, Prolonged;
    if j > 0 {
      RunProlongs(cfg, stores, events, j - 1);
      RunStep(cfg, stores, events, j - 1);
      StepProlongs(cfg, stores[j - 1], events[j - 1]);
      forall id | id in stores[j]
        ensures Prolonged(stores[j], id) <==> !NeverExtended(cfg, stores, events, j, id)
      {
        NotFiledNotExtended(cfg, stores, events, j - 1, id);
        assert NeverExtended(cfg, stores, events, j, id)
          <==> NeverExtended(cfg, stores, events, j - 1, id) && !ExtendsAt(cfg, stores[j - 1], events[j - 1], id);
      }
    }
  }

  /** A session that is not filed yet has not been extended. */
  lemma {:induction false} NotFiledNotExtended(cfg: Config, stores: seq<Store>, events: seq<Event>, j: nat, id: string)
    requires IsRun(cfg, stores, events) && j < |stores|
    ensures id !in stores[j] ==> NeverExtended(cfg, stores, events, j, id) && !Prolonged(stores[j], id)
    decreases j
  {
    hide Proper, Apply, Valid, GetFrom, KeepsExpired;
    if j > 0 && id !in stores[j] {
      RunStep(cfg, stores, events, j - 1);
      NotFiledNotExtended(cfg, stores, events, j - 1, id);
      if ExtendsAt(cfg, stores[j - 1], events[j - 1], id) {
        OnlyFiledExtended(cfg, stores[j - 1], events[j - 1], id);
      }
    }
  }

  lemma OnlyFiledExtended(cfg: Config, store: Store, e: Event, id: string)
    requires Valid(cfg, store, e.now) && ExtendsAt(cfg, store, e, id)
    ensures id in store
  {
    hide GetFrom, Valid;
    GetExtends(cfg, store, e.op.keys, 0, e.op.token, e.now, e.op.later);
    var key :| key in store && store[key] == Answer(cfg, store, e).session;
    FiledUnderId(cfg, store, key, e.now);
  }

  /** At every instant of every run, a session expires within the maximal age of its creation iff no `get_session` has
      extended it after its creation; and without sliding expiration it expires exactly then. */
  lemma WithinMaximalAgeIff(cfg: Config, stores: seq<Store>, events: seq<Event>, j: nat, id: string)
    requires IsRun(cfg, stores, events) && j < |stores| && id in stores[j]
    ensures stores[j][id].expiresAt <= stores[j][id].createdAt + cfg.maxAge
      <==> NeverExtended(cfg, stores, events, j, id)
    ensures !cfg.sliding ==> stores[j][id].expiresAt == stores[j][id].createdAt + cfg.maxAge
  {
    hide IsRun;
    RunLength(cfg, stores, events);
    RunProlongs(cfg, stores, events, j);
  }

  /** The one session of a run that creates it and then asks for it at each last instant before it expires. */
  function Only(cfg: Config, user: string, token: string, n: nat): Session
    requires |token| >= 8
  {
    var last := n * (cfg.maxAge - 1);
    NewSession(cfg, user, token, 0).(lastActiveAt := last, expiresAt := last + cfg.maxAge)
  }

  lemma OnlyListed(s: Session, user: string, token: string)
    requires |token| >= 8 && s.id == SessionId(user, token)
    ensures Lists(map[s.id := s], "session:", [s.id])
  {
    assert s.id == "session:" + (user + ":" + token[..8]);
  }

  lemma OnlyExtended(cfg: Config, user: string, token: string, n: nat)
    requires Sane(cfg.crypto) && cfg.sliding && cfg.maxAge > 1 && cfg.window > 1
    requires |token| >= 8 && Lacks(token, '.')
    ensures var s, at := Only(cfg, user, token, n), (n + 1) * (cfg.maxAge - 1);
      GetFrom(cfg, map[s.id := s], [s.id], 0, token, at, at)
        == (Found(s), map[s.id := Only(cfg, user, token, n + 1)])
  {
    hide Verify, Sign;
    SignVerifies(cfg.crypto, token, token);
    var s, at := Only(cfg, user, token, n), (n + 1) * (cfg.maxAge - 1);
    assert at == n * (cfg.maxAge - 1) + (cfg.maxAge - 1);
    assert s.expiresAt - at == 1 && s.IsValid(at);
    var store, next := map[s.id := s], Only(cfg, user, token, n + 1);
    assert next == s.(lastActiveAt := at, expiresAt := at + cfg.maxAge);
    assert store[s.id := next] == map[s.id := next];
    assert Extend(cfg, store, s, at) == map[s.id := next];
  }

  /** With sliding expiration there is no bound: a session asked for again and again lives on for any multiple of the
      maximal age less one. */
  lemma {:induction false} NoAbsoluteMaximum(cfg: Config, user: string, token: string, n: nat)
      returns (stores: seq<Store>, events: seq<Event>)
    requires Sane(cfg.crypto) && cfg.sliding && cfg.maxAge > 1 && cfg.window > 1
    requires |token| >= 8 && Lacks(token, '.') && Lacks(token, ':')
    ensures IsRun(cfg, stores, events) && |events| == n + 1
    ensures EndOf(events[n]) == n * (cfg.maxAge - 1)
    ensures var s := Only(cfg, user, token, n);
      stores[n + 1] == map[s.id := s] && s.expiresAt == s.createdAt + cfg.maxAge + n * (cfg.maxAge - 1)
  {
    if n == 0 {
      var s := NewSession(cfg, user, token, 0);
      assert s == Only(cfg, user, token, 0);
      stores, events := [map[], map[s.id := s]], [Event(Create(user, token), 0)];
    } else {
      var earlier, calls := NoAbsoluteMaximum(cfg, user, token, n - 1);
      var s, at := Only(cfg, user, token, n - 1), n * (cfg.maxAge - 1);
      var call := Event(Get(token, [s.id], at), at);
      OnlyListed(s, user, token);
      OnlyExtended(cfg, user, token, n - 1);
      assert at == (n - 1) * (cfg.maxAge - 1) + (cfg.maxAge - 1);
      stores, events := earlier + [Apply(cfg, earlier[n], call)], calls + [call];
      RunGrows(cfg, earlier, calls, call);
    }
  }

  lemma RunGrows(cfg: Config, stores: seq<Store>, events: seq<Event>, e: Event)
    requires IsRun(cfg, stores, events) && Proper(stores[|events|], e)
    requires events != [] ==> EndOf(events[|events| - 1]) <= e.now
    ensures IsRun(cfg, stores + [Apply(cfg, stores[|events|], e)], events + [e])
  {
    hide Apply, Proper;
  }
}
