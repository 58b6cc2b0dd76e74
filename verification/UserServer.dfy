/**
 The user side of the server as it runs: the functions of users.c and tokens.c and the request
 handlers that use them, over any run of requests and timer expiries. Every handler gives back the
 references it took, no pointer ever dangles, and expiry frees.

 What mysql holds is a map from names to rows here; each query may fail. Clients bound to users and
 the messages themselves are not part of this model.
 */
module UserServer {
  import opened Bytes
  import opened Users
  import opened UserTokens
  import opened UserTimes

  const SERR_SUCCESS := 0
  const SERR_ERR := 0xFF01
  const SERR_IS_ONLINE := 0xFF02
  const SERR_USR_NOT_EXIST := 0xFF03
  const SERR_PWD_ERR := 0xFF04
  const SERR_FORCE_LOGOUT := 0xFF05
  const SERR_ARG := 0xFF07

  /** The tokens in the database are distinct, and distinct from those in memory but for each user's own. */
  ghost predicate Agreed(s: State, db: map<Text, Row>) {
    && Apart(db)
    && (forall n, r :: n in db && r in s.heap && s.heap[r].username != n ==>
      s.heap[r].token != db[n].token || db[n].token == NO_TOKEN)
  }

  /** A random token that is nobody's. */
  predicate Unused(heap: map<Ref, User>, db: map<Text, Row>, token: Text) {
    && token != NO_TOKEN
    && (forall r :: r in heap ==> heap[r].token != token)
    && (forall n :: n in db ==> db[n].token != token)
  }

  /** Records that were not there before were read from the database. */
  ghost predicate FromDatabase(before: map<Ref, User>, after: map<Ref, User>, db: map<Text, Row>) {
    forall r :: r in after && r !in before ==> after[r].username in db && after[r].token == db[after[r].username].token
  }

  predicate SameButSeed(u: User, v: User, seeded: bool) {
    SameUser(if seeded then u.(isSeedExisted := v.isSeedExisted) else u, v)
  }

  /** Whether the records of `h` are in `k` as they were, but for the seed of one of them. */
  ghost predicate OnlySeeded(h: map<Ref, User>, k: map<Ref, User>, usr: Ref) {
    forall r :: r in h ==> r in k && SameButSeed(h[r], k[r], r == usr)
  }

  // ---- Whom a request finds ----

  /** Whether a name leads to a record, in memory or through the database. */
  ghost predicate IsRegistered(s: State, db: map<Text, Row>, name: Text, up: bool) {
    name in s.users || (up && name in db)
  }

  /** Whether a token leads to a record; `found` is the name that mysql has for it. */
  ghost predicate HasOwner(s: State, db: map<Text, Row>, token: Text, found: Option<Text>, up: bool) {
    token in s.tokens || (found.Some? && IsRegistered(s, db, found.value, up))
  }

  /** The name of the user that a token leads to. */
  ghost function OwnerOf(s: State, token: Text, found: Option<Text>): Text {
    if token in s.tokens && s.tokens[token] in s.heap then s.heap[s.tokens[token]].username
    else if found.Some? then found.value else []
  }

  /** The token of the record that a token leads to: for a record yet to be read, the one in the database. */
  ghost function TokenOf(s: State, db: map<Text, Row>, token: Text, found: Option<Text>): Text {
    if token in s.tokens || found.None? then token
    else if found.value in s.users then (if s.users[found.value] in s.heap then s.heap[s.users[found.value]].token else token)
    else if found.value in db then db[found.value].token else token
  }

  /** Whether the record that a token leads to has an effective token once it is found. */
  ghost predicate IsAuthorised(s: State, db: map<Text, Row>, token: Text, found: Option<Text>, up: bool) {
    token in s.tokens ||
    (HasOwner(s, db, token, found, up) &&
     (TokenOf(s, db, token, found) in s.tokens || (found.value !in s.users && TokenOf(s, db, token, found) != NO_TOKEN)))
  }

  /** The names whose records a request finds: a message finds its sender and, if that is authorised, its receiver. */
  ghost function FoundBy(s: State, db: map<Text, Row>, e: Event): set<Text> {
    match e
    case AskSeed(username, up, _, _) =>
      if username.Some? && IsRegistered(s, db, username.value, up) then {username.value} else {}
    case LogIn(username, crypto, _, up, _, _, _) =>
      if username.Some? && crypto.Some? && |crypto.value| == 64 && IsRegistered(s, db, username.value, up) then {username.value} else {}
    case LogOut(token, found, up, _, _) =>
      if token.Some? && HasOwner(s, db, token.value, found, up) then {OwnerOf(s, token.value, found)} else {}
    case Message(token, found, up, sendto, upTo, _, _, _) =>
      if token.None? || !HasOwner(s, db, token.value, found, up) then {}
      else {OwnerOf(s, token.value, found)} + FoundTo(s, db, token.value, found, up, sendto, upTo)
    case TimePasses(_) => {}
  }

  /** The receiver of a message, who may be the sender read in for it. */
  ghost function FoundTo(s: State, db: map<Text, Row>, token: Text, found: Option<Text>, up: bool, sendto: Option<Text>, upTo: bool): set<Text> {
    if IsAuthorised(s, db, token, found, up) && sendto.Some? &&
       (IsRegistered(s, db, sendto.value, upTo) || (token !in s.tokens && found == sendto)) then {sendto.value}
    else {}
  }

  /** struct server, as far as users go */
  class Server {
    var heap: map<Ref, User>
    var users: map<Text, Ref>
    var tokens: map<Text, Ref>
    var queue: set<Ref>
    var db: map<Text, Row>
    ghost var held: multiset<Ref>

    ghost function Now(): State
      reads this
    {
      State(heap, users, tokens, queue, held)
    }

    ghost predicate Ready()
      reads this
    {
      Quiet(Now()) && Agreed(Now(), db) && Punctual(Now())
    }

    /** init_users_map, init_token and init_timer */
    constructor (db: map<Text, Row>)
      ensures Now() == NOBODY && this.db == db
      ensures Ready() <==> Apart(db)
    {
      heap, users, tokens, queue, held := map[], map[], map[], {}, multiset{};
      this.db := db;
    }

    // ---- users.c ----

    /** user_get */
    method UserGet(usr: Ref, now: int)
      requires usr in heap
      modifies this`heap, this`held
      ensures Now() == Get(old(Now()), usr, now)
      ensures usr in heap && heap[usr].timeout == now + heap[usr].delaySec && heap[usr].useCnt == old(heap)[usr].useCnt + 1
    {
      heap := heap[usr := heap[usr].(useCnt := heap[usr].useCnt + 1)];
      // kick_timer
      heap := heap[usr := heap[usr].(timeout := now + heap[usr].delaySec)];
      held := held + multiset{usr};
    }

    /** user_put */
    method UserPut(usr: Ref)
      requires usr in heap
      modifies this`heap, this`users, this`held
      ensures Now() == Put(old(Now()), usr)
    {
      ghost var before := heap;
      heap := heap[usr := heap[usr].(useCnt := heap[usr].useCnt - 1)];
      held := held - multiset{usr};
      assert heap - {usr} == before - {usr};
      if heap[usr].useCnt == 0 {
        users := users - {heap[usr].username};
        heap := heap - {usr};
      }
    }

    /** malloc: some address that is not in use */
    method Malloc() returns (addr: Ref)
      ensures addr !in heap
    {
      addr := 0;
      ghost var seen: set<Ref> := {};
      while addr in heap
        invariant seen <= heap.Keys && |seen| == addr && forall r :: r in seen ==> r < addr
        decreases |heap.Keys - seen|
      {
        seen := seen + {addr};
        addr := addr + 1;
      }
    }

    /** get_user_by_name_from_mysql and the start of the record's timer, with the reference for it. */
    method LoadUser(name: Text, now: int) returns (usr: Ref)
      requires name !in users && name in db
      modifies this`heap, this`users, this`queue
      ensures usr !in old(heap) && Now() == Added(old(Now()), name, db[name], usr, now)
    {
      usr := Malloc();
      heap := heap[usr := User(name, db[name].password, db[name].token, false, false, 0, 0, 0)];
      users := users[name := usr];
      // add_timer
      heap := heap[usr := heap[usr].(delaySec := SERVER_USER_UNUSED_TIMEOUT, timeout := now + SERVER_USER_UNUSED_TIMEOUT)];
      queue := queue + {usr};
      // user_get, for the timer
      heap := heap[usr := heap[usr].(useCnt := heap[usr].useCnt + 1, timeout := now + heap[usr].delaySec)];
    }

    /** try_effect_token */
    method TryEffectToken(usr: Ref, now: int) returns (ret: int)
      requires usr in heap
      modifies this`heap, this`tokens
      ensures Now() == Effect(old(Now()), usr, now)
    {
      if heap[usr].token == NO_TOKEN {
        return -1;
      }
      tokens := tokens[heap[usr].token := usr];
      // user_get, for the token map
      heap := heap[usr := heap[usr].(useCnt := heap[usr].useCnt + 1, timeout := now + heap[usr].delaySec)];
      ret := 0;
    }

    /** free_token */
    method FreeToken(usr: Ref)
      requires usr in heap
      modifies this`heap, this`users, this`tokens, this`held
      ensures Now() == Free(old(Now()), usr)
    {
      tokens := tokens - {heap[usr].token};
      held := held + multiset{usr};
      UserPut(usr);
    }

    /** get_user_by_name; `up` is whether mysql answers. */
    method FindUser(name: Text, up: bool, now: int) returns (usr: Option<Ref>, ghost addr: Ref)
      requires Safe(Now())
      modifies this`heap, this`users, this`tokens, this`queue, this`held
      ensures addr !in old(heap)
      ensures (Now(), usr) == ByName(old(Now()), name, RowOf(db, Lookup(name, up, addr, now)), addr, now)
    {
      var u: Ref;
      if name in users {
        UserOfName(Now(), name);
        hide Safe;
        u := users[name];
        addr := Malloc();
      } else {
        hide Safe;
        if !up || name !in db {
          addr := Malloc();
          return None, addr;
        }
        u := LoadUser(name, now);
        addr := u;
        var _ := TryEffectToken(u, now);
      }
      UserGet(u, now);
      usr := Some(u);
    }

    /** The same between requests. */
    method GetUserByName(name: Text, up: bool, now: int) returns (usr: Option<Ref>)
      requires Ready()
      modifies this`heap, this`users, this`tokens, this`queue, this`held
      ensures Ready() && Grows(old(Now()), Now())
      ensures usr.Some? <==> name in old(users) || (up && name in db)
      ensures name in old(users) ==> usr == Some(old(users)[name])
      ensures usr.None? ==> Now() == old(Now())
      ensures usr.Some? ==> usr.value in heap && heap[usr.value].username == name && held == old(held) + multiset{usr.value}
      ensures FromDatabase(old(heap), heap, db)
      ensures usr.Some? && name in old(users) ==> users == old(users) && tokens == old(tokens)
      ensures usr.Some? && name !in old(users) ==>
        && users == old(users)[name := usr.value]
        && tokens == (if db[name].token == NO_TOKEN then old(tokens) else old(tokens)[db[name].token := usr.value])
        && heap[usr.value].token == db[name].token && !heap[usr.value].isOnline && !heap[usr.value].isSeedExisted
      ensures usr.Some? ==> heap[usr.value].timeout == now + 120 && heap[usr.value].delaySec == 120
      ensures Clock(Now()) == Stamped(old(Clock(Now())), if usr.Some? then {name} else {}, now)
    {
      hide Punctual, Clock, Stamped, Safe, Balanced, DistinctTokens, References, Grows, FreshToken, Agreed, FromDatabase, ByName;
      ghost var was, addr := Now(), 0;
      usr, addr := FindUser(name, up, now);
      FoundKeeps(was, Now(), usr, db, name, up, addr, now);
    }

    // ---- tokens.c ----

    ghost predicate Registered(name: Text, up: bool)
      reads this
    {
      IsRegistered(Now(), db, name, up)
    }

    ghost predicate Finds(token: Text, found: Option<Text>, up: bool)
      reads this
    {
      HasOwner(Now(), db, token, found, up)
    }

    ghost function OwnToken(token: Text, found: Option<Text>): Text
      reads this
    {
      TokenOf(Now(), db, token, found)
    }

    ghost predicate Authorised(token: Text, found: Option<Text>, up: bool)
      reads this
    {
      IsAuthorised(Now(), db, token, found, up)
    }

    /** get_usr_by_token; `found` is the name that mysql has for the token, if it answers. */
    method GetUsrByToken(token: Text, found: Option<Text>, up: bool, now: int) returns (usr: Option<Ref>)
      requires Ready()
      modifies this`heap, this`users, this`tokens, this`queue, this`held
      ensures Ready() && Grows(old(Now()), Now())
      ensures usr.None? ==> Now() == old(Now())
      ensures usr.Some? ==> usr.value in heap && held == old(held) + multiset{usr.value}
      ensures token in old(tokens) ==> usr == Some(old(tokens)[token]) && users == old(users) && tokens == old(tokens)
      ensures usr.Some? <==> old(Finds(token, found, up))
      ensures usr.None? ==> !old(Authorised(token, found, up))
      ensures usr.Some? && token !in old(tokens) ==>
        && heap[usr.value].username == found.value
        && users == old(users)[found.value := usr.value]
        && tokens == (if found.value in old(users) || db[found.value].token == NO_TOKEN then old(tokens)
                      else old(tokens)[db[found.value].token := usr.value])
      ensures usr.Some? ==> heap[usr.value].token == old(OwnToken(token, found))
      ensures usr.Some? ==> (IsTokenEffective(usr.value) <==> old(Authorised(token, found, up)))
      ensures usr.Some? ==> heap[usr.value].timeout == now + 120 && heap[usr.value].username == old(OwnerOf(Now(), token, found))
      ensures Clock(Now()) == Stamped(old(Clock(Now())), if usr.Some? then {old(OwnerOf(Now(), token, found))} else {}, now)
    {
      hide Clock, Stamped, Balanced, DistinctTokens, References, Grows, FreshToken, Agreed;
      ghost var was := Now();
      StampedNone(Clock(was), now);
      if token in tokens {
        GetStamps(was, was.tokens[token], now);
        UserGet(tokens[token], now);
        GetKeeps(was, was.tokens[token], now);
        GetGrows(was, was.tokens[token], now);
        StillAgreed(was, Now(), db, []);
        return Some(tokens[token]);
      }
      if found.None? {
        GrowsToItself(was);
        return None;
      }
      usr := GetUserByName(found.value, up, now);
      if found.value in was.users {
        UserOfName(was, found.value);
        TokenStays(was, Now(), usr.value);
      }
    }

    /** is_token_effective */
    predicate IsTokenEffective(usr: Ref)
      requires usr in heap
      reads this
    {
      heap[usr].token in tokens
    }

    /** alloc_new_token; `random` is what the random pool gives, `stores` whether mysql takes the token. */
    method AllocNewToken(usr: Ref, random: Option<Text>, stores: bool, now: int) returns (ret: int)
      requires Ready() && usr in heap
      requires random.Some? ==> Unused(heap, db, random.value)
      modifies this`heap, this`users, this`tokens, this`held, this`db
      ensures usr in heap && heap.Keys == old(heap).Keys && users == old(users) && held == old(held)
      ensures forall q :: q in heap && q != usr ==> heap[q] == old(heap)[q]
      ensures heap[usr].username == old(heap)[usr].username
      ensures ret == 0 <==> random.Some? && stores && old(heap)[usr].username in old(db)
      ensures ret == 0 ==> heap[usr].token == random.value && tokens == (old(tokens) - {old(heap)[usr].token})[random.value := usr]
      ensures ret == 0 ==> db == old(db)[heap[usr].username := old(db)[heap[usr].username].(token := random.value)]
      ensures Ready()
      ensures Clock(Now()) == Stamped(old(Clock(Now())), if ret == 0 then {old(heap)[usr].username} else {}, now)
    {
      hide Punctual, Clock, Stamped, Safe, Balanced, DistinctTokens, References, NewToken;
      ghost var was := Now();
      StampedNone(Clock(was), now);
      if random.None? {
        return -1;
      }
      var stored := stores && heap[usr].username in db;
      UnusedIsFresh(was, db, usr, random.value);
      NewTokenKeeps(was, usr, random, stored, now);
      NewTokenName(was, usr, random, stored, now);
      NewTokenStamps(was, usr, random, stored, now);
      SwapToken(usr, random.value, stored, now);
      ret := -1;
      if stored {
        // store_token_to_mysql
        db := db[heap[usr].username := db[heap[usr].username].(token := random.value)];
        ret := 0;
      }
      TokenAgreed(was, Now(), old(db), db, usr);
    }

    /** The part of alloc_new_token behind the random pool; `stored` is what store_token_to_mysql comes to. */
    method SwapToken(usr: Ref, token: Text, stored: bool, now: int)
      requires Valid(Now()) && usr in heap && usr in queue
      modifies this`heap, this`users, this`tokens, this`held
      ensures Now() == NewToken(old(Now()), usr, Some(token), stored, now)
    {
      hide Safe, Balanced, DistinctTokens, References, Free, Effect;
      FreeIfMapped(Now(), usr);
      if IsTokenEffective(usr) {
        FreeToken(usr);
      }
      heap := heap[usr := heap[usr].(token := token)];
      if stored {
        var _ := TryEffectToken(usr, now);
      }
    }

    // ---- Request handlers ----

    /** user_put at the end of a handler: the record stays, for its timer is running. */
    method Release(usr: Ref)
      requires Ready() && usr in held
      modifies this`heap, this`users, this`held
      ensures usr in heap && heap == old(heap)[usr := old(heap)[usr].(useCnt := old(heap)[usr].useCnt - 1)]
      ensures users == old(users) && held == old(held) - multiset{usr}
      ensures Ready() && Grows(old(Now()), Now()) && Clock(Now()) == old(Clock(Now()))
    {
      hide Punctual, Clock, Safe, Balanced, DistinctTokens, References;
      ghost var was := Now();
      HeldIsAllocated(was, usr);
      ReleaseKeeps(was, usr);
      UserPut(usr);
      SameClock(was, Now());
    }

    /** The part of com.message.sendto.request once the sender is known; `bound` is whether the receiver has a client. */
    method SendFrom(from: Ref, sendto: Option<Text>, up: bool, bound: bool, sent: bool, now: int) returns (res: int)
      requires Ready() && from in held && from in heap
      modifies this`heap, this`users, this`tokens, this`queue, this`held
      ensures Ready() && held == old(held) - multiset{from} && Grows(old(Now()), Now())
      ensures !old(IsTokenEffective(from)) ==> res == -SERR_FORCE_LOGOUT
      ensures old(IsTokenEffective(from)) && sendto.None? ==> res == -SERR_ARG
      ensures old(IsTokenEffective(from)) && sendto.Some? ==>
        res == if !(sendto.value in old(users) || (up && sendto.value in db)) then -SERR_USR_NOT_EXIST
               else if bound && !sent then -SERR_ERR else SERR_SUCCESS
      ensures Clock(Now()) == Stamped(old(Clock(Now())), if old(IsTokenEffective(from)) && sendto.Some? &&
        (sendto.value in old(users) || (up && sendto.value in db)) then {sendto.value} else {}, now)
    {
      hide Punctual, Clock, Stamped, Quiet, Agreed, Grows;
      StampedNone(Clock(Now()), now);
      if !IsTokenEffective(from) {
        Release(from);
        return -SERR_FORCE_LOGOUT;
      }
      if sendto.None? {
        Release(from);
        return -SERR_ARG;
      }
      res := Deliver(from, sendto.value, up, bound, sent, now);
    }

    /** The part behind the checks of the sender's token. */
    method Deliver(from: Ref, name: Text, up: bool, bound: bool, sent: bool, now: int) returns (res: int)
      requires Ready() && from in held
      modifies this`heap, this`users, this`tokens, this`queue, this`held
      ensures Ready() && held == old(held) - multiset{from} && Grows(old(Now()), Now())
      ensures res == if !(name in old(users) || (up && name in db)) then -SERR_USR_NOT_EXIST
                     else if bound && !sent then -SERR_ERR else SERR_SUCCESS
      ensures Clock(Now()) == Stamped(old(Clock(Now())), if name in old(users) || (up && name in db) then {name} else {}, now)
    {
      hide Punctual, Clock, Stamped, Quiet, Agreed, Grows;
      ghost var was := Now();
      var to := Receiver(name, up, now);
      ghost var found := Now();
      if to.None? {
        Release(from);
        return -SERR_USR_NOT_EXIST;
      }
      BothHeld(was.held, from, to.value);
      ReleaseBoth(from, to.value);
      GrowsOn(was, found, Now());
      // Without a client the message goes to the database, which is not waited for.
      res := if bound && !sent then -SERR_ERR else SERR_SUCCESS;
    }

    /** get_user_by_name, as far as a message's receiver goes. */
    method Receiver(name: Text, up: bool, now: int) returns (to: Option<Ref>)
      requires Ready()
      modifies this`heap, this`users, this`tokens, this`queue, this`held
      ensures Ready() && Grows(old(Now()), Now())
      ensures to.Some? <==> name in old(users) || (up && name in db)
      ensures held == old(held) + if to.Some? then multiset{to.value} else multiset{}
      ensures to.None? ==> Now() == old(Now())
      ensures Clock(Now()) == Stamped(old(Clock(Now())), if to.Some? then {name} else {}, now)
    {
      hide Punctual, Clock, Stamped, Quiet, Agreed, Grows, FromDatabase;
      to := GetUserByName(name, up, now);
    }

    /** The sender is let go of, and then the receiver, who may be the same. */
    method ReleaseBoth(from: Ref, to: Ref)
      requires Ready() && multiset{from, to} <= held
      modifies this`heap, this`users, this`held
      ensures Ready() && held == old(held) - multiset{from, to} && Grows(old(Now()), Now()) && Clock(Now()) == old(Clock(Now()))
    {
      hide Punctual, Clock, Quiet, Agreed, Grows;
      ghost var was := Now();
      Release(from);
      ghost var mid := Now();
      Release(to);
      GrowsOn(was, mid, Now());
    }

    /** com.message.sendto.request: what a message from a token's user to a named user does to the records of both. */
    method SendTo(token: Option<Text>, found: Option<Text>, up: bool, sendto: Option<Text>, upTo: bool, bound: bool, sent: bool, now: int)
      returns (res: int)
      requires Ready()
      modifies this`heap, this`users, this`tokens, this`queue, this`held
      ensures Ready() && held == old(held) && Grows(old(Now()), Now())
      ensures token.None? ==> res == -SERR_ARG && Now() == old(Now())
      ensures token.Some? && !old(Authorised(token.value, found, up)) ==> res == -SERR_FORCE_LOGOUT
      ensures token.Some? && old(Authorised(token.value, found, up)) ==>
        res == if sendto.None? then -SERR_ARG
               else if !old(Registered(sendto.value, upTo) || (token.value !in tokens && found == sendto)) then -SERR_USR_NOT_EXIST
               else if bound && !sent then -SERR_ERR else SERR_SUCCESS
      ensures Clock(Now()) ==
        Stamped(old(Clock(Now())), old(FoundBy(Now(), db, Message(token, found, up, sendto, upTo, bound, sent, now))), now)
    {
      hide Punctual, Clock, Stamped, Quiet, Agreed, Grows, TokenOf;
      ghost var was := Now();
      StampedNone(Clock(was), now);
      if token.None? {
        GrowsToItself(was);
        return -SERR_ARG;
      }
      var from := GetUsrByToken(token.value, found, up, now);
      if from.None? {
        return -SERR_FORCE_LOGOUT;
      }
      ghost var known := Now();
      ghost var to := FoundTo(was, db, token.value, found, up, sendto, upTo);
      StampedTwice(Clock(was), {OwnerOf(was, token.value, found)}, to, now);
      res := SendFrom(from.value, sendto, upTo, bound, sent, now);
      GrowsOn(was, known, Now());
    }

    /** com.login.seed.request; `drawn` is whether the random pool gives a seed. */
    method Seed(username: Option<Text>, up: bool, drawn: bool, now: int) returns (res: int)
      requires Ready()
      modifies this`heap, this`users, this`tokens, this`queue, this`held
      ensures Ready() && held == old(held) && FromDatabase(old(heap), heap, db)
      ensures username.None? ==> Now() == old(Now())
      ensures res == if username.None? then -SERR_ARG
                     else if !old(Registered(username.value, up)) then -SERR_USR_NOT_EXIST
                     else if !drawn then -SERR_ARG else SERR_SUCCESS
      ensures res != SERR_SUCCESS ==> Grows(old(Now()), Now())
      ensures res == SERR_SUCCESS ==>
        && username.value in users && users[username.value] in heap && heap[users[username.value]].isSeedExisted
        && (if username.value in old(users) then users == old(users) else !heap[users[username.value]].isOnline)
        && OnlySeeded(old(heap), heap, users[username.value])
      ensures Clock(Now()) ==
        Stamped(old(Clock(Now())), if username.Some? && old(Registered(username.value, up)) then {username.value} else {}, now)
    {
      hide Punctual, Clock, Stamped, Quiet, Agreed, Grows, FromDatabase, OnlySeeded;
      ghost var was := Now();
      StampedNone(Clock(was), now);
      GrowsToItself(was);
      NoneFromDatabase(was, db);
      if username.None? {
        return -SERR_ARG;
      }
      var usr := GetUserByName(username.value, up, now);
      if usr.None? {
        return -SERR_USR_NOT_EXIST;
      }
      ghost var known := Now();
      res := SeedUser(usr.value, drawn);
      StillFromDatabase(was, known, Now(), usr.value, db);
      if res == SERR_SUCCESS {
        SeedIsOnly(was, known, Now(), usr.value);
      } else {
        GrowsOn(was, known, Now());
      }
    }

    /** com.login.seed.request without random bytes, in any state: the user is found and let go of. */
    method Refuse(name: Text, up: bool, now: int) returns (ghost l: Lookup)
      requires Standing(Now())
      modifies this`heap, this`users, this`tokens, this`queue, this`held
      ensures l.name == name && l.up == up && l.addr !in old(heap)
      ensures Standing(Now()) && Now() == Looked(old(Now()), db, l)
    {
      hide Safe, ByName, Put;
      ghost var was, addr := Now(), 0;
      var usr;
      usr, addr := FindUser(name, up, now);
      l := Lookup(name, up, addr, now);
      LookedStands(was, db, l);
      if usr.Some? {
        FoundIsThere(was, name, RowOf(db, l), addr, now);
        UserPut(usr.value);
      }
    }

    /** The part of com.login.seed.request once the user is known. */
    method SeedUser(usr: Ref, drawn: bool) returns (res: int)
      requires Ready() && usr in heap && usr in held
      modifies this`heap, this`users, this`held
      ensures Ready() && held == old(held) - multiset{usr} && users == old(users) && heap.Keys == old(heap).Keys
      ensures res == if drawn then SERR_SUCCESS else -SERR_ARG
      ensures res != SERR_SUCCESS ==> Grows(old(Now()), Now())
      ensures OnlySeeded(old(heap), heap, usr) && heap[usr].isOnline == old(heap)[usr].isOnline
      ensures res == SERR_SUCCESS ==> heap[usr].isSeedExisted
      ensures Clock(Now()) == old(Clock(Now()))
    {
      hide Punctual, Clock, Safe, Balanced, DistinctTokens, References, Agreed, Grows;
      if !drawn {
        Release(usr);
        return -SERR_ARG;
      }
      ghost var known := Now();
      heap := heap[usr := heap[usr].(isSeedExisted := true)];
      FlagsKeep(known, Now(), db, usr, known.heap[usr].isOnline, true);
      Release(usr);
      res := SERR_SUCCESS;
    }

    /** The end of a successful login: a new token, and the flags of the record. */
    method LogUserIn(usr: Ref, random: Option<Text>, stores: bool, now: int)
      requires Ready() && usr in heap && usr in held
      requires random.Some? ==> Unused(heap, db, random.value)
      modifies this`heap, this`users, this`tokens, this`held, this`db
      ensures usr in heap && heap[usr].isOnline && !heap[usr].isSeedExisted && heap[usr].username == old(heap)[usr].username
      ensures random.Some? && stores && heap[usr].username in old(db) ==> random.value in tokens && tokens[random.value] == usr
      ensures users == old(users) && held == old(held) - multiset{usr} && Ready()
      ensures Clock(Now()) == old(Clock(Now())) || Clock(Now()) == Stamped(old(Clock(Now())), {old(heap)[usr].username}, now)
    {
      hide Punctual, Clock, Stamped, Safe, Balanced, DistinctTokens, References;
      StampedNone(Clock(Now()), now);
      var _ := AllocNewToken(usr, random, stores, now);
      ghost var mid := Now();
      heap := heap[usr := heap[usr].(isOnline := true, isSeedExisted := false)];
      FlagsKeep(mid, Now(), db, usr, true, false);
      Release(usr);
    }

    /** A user that is in memory. */
    ghost predicate Known(username: Option<Text>)
      reads this
    {
      username.Some? && username.value in users && users[username.value] in heap
    }

    /** What a successful login leaves. */
    ghost predicate LoggedIn(username: Option<Text>, right: bool)
      reads this
    {
      Known(username) && right && heap[users[username.value]].isOnline && !heap[users[username.value]].isSeedExisted
    }

    /** com.login.request; `crypto` is the answer to the seed, `right` whether it is the hash that the server computes. */
    method Login(username: Option<Text>, crypto: Option<Text>, right: bool, up: bool, random: Option<Text>, stores: bool, now: int)
      returns (res: int)
      requires Ready() && (random.Some? ==> Unused(heap, db, random.value))
      modifies this`heap, this`users, this`tokens, this`queue, this`held, this`db
      ensures Ready() && held == old(held)
      ensures username.None? || crypto.None? || |crypto.value| != 64 ==> res == -SERR_ARG && Now() == old(Now())
      ensures res == SERR_SUCCESS ==> LoggedIn(username, right)
      ensures res == SERR_SUCCESS && random.Some? && stores && username.value in old(db) ==>
        random.value in tokens && tokens[random.value] == users[username.value]
      ensures res != SERR_SUCCESS ==> Grows(old(Now()), Now()) && db == old(db)
      ensures username.Some? && crypto.Some? && |crypto.value| == 64 ==>
        res == if !old(Known(username)) || !right || !old(heap[users[username.value]].isSeedExisted) then -SERR_PWD_ERR
               else if old(heap[users[username.value]].isOnline) then -SERR_IS_ONLINE else SERR_SUCCESS
      ensures Clock(Now()) == Stamped(old(Clock(Now())), if username.Some? && crypto.Some? && |crypto.value| == 64 &&
        old(Registered(username.value, up)) then {username.value} else {}, now)
    {
      hide Punctual, Clock, Stamped, Safe, Balanced, DistinctTokens, References, Agreed, Grows;
      ghost var was := Now();
      StampedNone(Clock(was), now);
      GrowsToItself(was);
      if username.None? || crypto.None? || |crypto.value| != 64 {
        return -SERR_ARG;
      }
      var usr := GetUserByName(username.value, up, now);
      if usr.None? {
        return -SERR_PWD_ERR;
      }
      ghost var mid := Now();
      UserIsNamed(mid, usr.value);
      if username.value in was.users {
        UserOfName(was, username.value);
        FlagsGrow(was, mid, was.users[username.value]);
      }
      if random.Some? {
        StillUnused(was, mid, db, random.value);
      }
      StampedTwice(Clock(was), {username.value}, {username.value}, now);
      assert {username.value} + {username.value} == {username.value};
      res := LoginUser(usr.value, right, random, stores, now);
      if res != SERR_SUCCESS {
        GrowsOn(was, mid, Now());
      }
    }

    /** The part of com.login.request once the user is known. */
    method LoginUser(usr: Ref, right: bool, random: Option<Text>, stores: bool, now: int) returns (res: int)
      requires Ready() && usr in heap && usr in held && heap[usr].username in users && users[heap[usr].username] == usr
      requires random.Some? ==> Unused(heap, db, random.value)
      modifies this`heap, this`users, this`tokens, this`held, this`db
      ensures res == if !right || !old(heap[usr].isSeedExisted) then -SERR_PWD_ERR
                     else if old(heap[usr].isOnline) then -SERR_IS_ONLINE else SERR_SUCCESS
      ensures res == SERR_SUCCESS ==> LoggedIn(Some(old(heap)[usr].username), right) && users == old(users)
      ensures res == SERR_SUCCESS && random.Some? && stores && old(heap)[usr].username in old(db) ==>
        random.value in tokens && tokens[random.value] == usr
      ensures res != SERR_SUCCESS ==> Grows(old(Now()), Now()) && db == old(db)
      ensures Ready() && held == old(held) - multiset{usr}
      ensures Clock(Now()) == old(Clock(Now())) || Clock(Now()) == Stamped(old(Clock(Now())), {old(heap)[usr].username}, now)
    {
      hide Punctual, Clock, Stamped, Balanced, DistinctTokens, References, Agreed, Grows;
      if !heap[usr].isSeedExisted || !right {
        Release(usr);
        return -SERR_PWD_ERR;
      }
      if heap[usr].isOnline {
        Release(usr);
        return -SERR_IS_ONLINE;
      }
      LogUserIn(usr, random, stores, now);
      res := SERR_SUCCESS;
    }

    /** free_token by a handler that holds a reference: the record stays. */
    method DropToken(usr: Ref)
      requires Ready() && usr in heap && IsTokenEffective(usr)
      modifies this`heap, this`users, this`tokens, this`held
      ensures usr in heap && heap.Keys == old(heap).Keys && users == old(users) && held == old(held)
      ensures tokens == old(tokens) - {old(heap)[usr].token} && SameUser(old(heap)[usr], heap[usr])
      ensures Ready() && Clock(Now()) == old(Clock(Now()))
    {
      hide Punctual, Clock, Safe, Balanced, DistinctTokens, References, Free;
      ghost var was := Now();
      FreeKeeps(was, usr);
      FreeLeavesToken(was, usr);
      FreeToken(usr);
      SameClock(was, Now());
      SameAgreed(was, Now(), db, usr);
    }

    /** com.logout.bytoken.request; `invalidated` is whether mysql takes the token for invalid. */
    method Logout(token: Option<Text>, found: Option<Text>, up: bool, invalidated: bool, now: int) returns (res: int)
      requires Ready()
      modifies this`heap, this`users, this`tokens, this`queue, this`held
      ensures Ready() && held == old(held)
      ensures token.None? ==> res == -SERR_ARG && Now() == old(Now())
      ensures token.Some? ==>
        res == if old(Authorised(token.value, found, up)) && invalidated then SERR_SUCCESS else -SERR_FORCE_LOGOUT
      ensures res == SERR_SUCCESS ==> tokens == old(tokens) - {old(OwnToken(token.value, found))}
      ensures token.Some? && token.value in old(tokens) && !invalidated ==> tokens == old(tokens)
      ensures res != SERR_SUCCESS ==> Grows(old(Now()), Now())
      ensures Clock(Now()) == Stamped(old(Clock(Now())), if token.Some? && old(Finds(token.value, found, up)) then
        {old(OwnerOf(Now(), token.value, found))} else {}, now)
    {
      hide Punctual, Clock, Stamped, Agreed, Valid, Safe, Grows, IsAuthorised;
      ghost var was := Now();
      StampedNone(Clock(was), now);
      GrowsToItself(was);
      if token.None? {
        return -SERR_ARG;
      }
      var usr := GetUsrByToken(token.value, found, up, now);
      if usr.None? {
        return -SERR_FORCE_LOGOUT;
      }
      ghost var known := Now();
      res := LogoutUser(usr.value, invalidated);
      if res != SERR_SUCCESS {
        GrowsOn(was, known, Now());
      } else if token.value !in was.tokens && found.value !in was.users {
        PutAndTaken(was.tokens, db[found.value].token, usr.value);
      }
    }

    /** The part of com.logout.bytoken.request once the user is known. */
    method LogoutUser(usr: Ref, invalidated: bool) returns (res: int)
      requires Ready() && usr in heap && usr in held
      modifies this`heap, this`users, this`tokens, this`held
      ensures res == if old(IsTokenEffective(usr)) && invalidated then SERR_SUCCESS else -SERR_FORCE_LOGOUT
      ensures tokens == if res == SERR_SUCCESS then old(tokens) - {old(heap)[usr].token} else old(tokens)
      ensures res == SERR_SUCCESS ==> usr in heap && !heap[usr].isOnline
      ensures res != SERR_SUCCESS ==> Grows(old(Now()), Now())
      ensures Ready() && held == old(held) - multiset{usr} && Clock(Now()) == old(Clock(Now()))
    {
      hide Punctual, Clock, Safe, Agreed, Balanced, DistinctTokens, References;
      if !IsTokenEffective(usr) || !invalidated {
        Release(usr);
        return -SERR_FORCE_LOGOUT;
      }
      ghost var mid := Now();
      heap := heap[usr := heap[usr].(isOnline := false)];
      FlagsKeep(mid, Now(), db, usr, false, mid.heap[usr].isSeedExisted);
      DropToken(usr);
      Release(usr);
      res := SERR_SUCCESS;
    }

    // ---- Expiry ----

    /** del_timer and user_memory_free_handler */
    method ExpireUser(usr: Ref)
      requires Ready() && usr in queue && held == multiset{}
      modifies this`heap, this`users, this`tokens, this`queue, this`held
      ensures usr in old(heap) && heap == old(heap) - {usr} && queue == old(queue) - {usr} && held == multiset{}
      ensures users == old(users) - {old(heap)[usr].username} && tokens == old(tokens) - {old(heap)[usr].token}
      ensures Ready() && Clock(Now()) == old(Clock(Now())) - {old(heap)[usr].username}
    {
      hide Punctual, Clock, Safe, Balanced, DistinctTokens, References, Free, Put;
      ghost var was := Now();
      ExpireFrees(was, usr);
      queue := queue - {usr};
      held := held + multiset{usr};
      UnqueuedKeeps(was, usr);
      FreeIfHeld(Now(), usr);
      if IsTokenEffective(usr) {
        FreeToken(usr);
      }
      UserPut(usr);
      FewerAgreed(was, Now(), db);
      QuietIsBalanced(was);
      ExpireStops(was, Now(), usr);
    }

    /** handle_timer_list: every record whose time has come is freed, and nothing leads to it any more; the rest stays as it is. */
    method Tick(now: int)
      requires Ready() && held == multiset{}
      modifies this`heap, this`users, this`tokens, this`queue, this`held
      ensures Ready() && held == multiset{}
      ensures heap == map r | r in old(heap) && now < old(heap)[r].timeout :: old(heap)[r]
      ensures forall t :: t in tokens <==> t in old(tokens) && old(tokens)[t] in heap
      ensures Clock(Now()) == NotDue(old(Clock(Now())), now)
    {
      hide Punctual, Clock, NotDue, Safe, Balanced, DistinctTokens, References, Agreed, Reduced;
      ghost var was := Now();
      ReducedNot(was, now);
      var due := set r | r in queue && heap[r].timeout <= now;
      while due != {}
        invariant Ready() && held == multiset{} && Reduced(was, Now(), now)
        invariant due == set r | r in queue && heap[r].timeout <= now
        decreases |due|
      {
        ghost var mid := Now();
        var r :| r in due;
        ExpireUser(r);
        ReducedMore(was, mid, Now(), now, r);
        due := due - {r};
      }
      forall r | r in heap ensures now < heap[r].timeout {
        assert r in queue && r !in due;
      }
      ReducedFully(was, Now(), now);
      QuietIsBalanced(was);
      QuietIsBalanced(Now());
      TickStops(was, Now(), now);
    }

    // ---- Runs ----

    /** One request, or one pass of the timers. It is refused if the random pool gives a token that is taken. */
    method Handle(e: Event) returns (handled: bool)
      requires Ready() && held == multiset{}
      modifies this
      ensures Ready() && held == multiset{}
      ensures handled ==> Clock(Now()) == Later(old(Clock(Now())), e, old(FoundBy(Now(), db, e)))
      ensures !handled ==> Now() == old(Now()) && db == old(db)
      ensures !handled ==> e.LogIn? && e.random.Some? && !Unused(heap, db, e.random.value)
    {
      hide Quiet, Agreed, Grows, Clock, Stamped, NotDue, Punctual, FoundTo, TokenOf;
      match e {
        case Message(token, found, up, sendto, upTo, bound, sent, now) =>
          var _ := SendTo(token, found, up, sendto, upTo, bound, sent, now);
        case AskSeed(username, up, drawn, now) =>
          var _ := Seed(username, up, drawn, now);
        case LogIn(username, crypto, right, up, random, stores, now) =>
          if random.Some? && !Unused(heap, db, random.value) {
            return false;
          }
          var _ := Login(username, crypto, right, up, random, stores, now);
        case LogOut(token, found, up, invalidated, now) =>
          var _ := Logout(token, found, up, invalidated, now);
        case TimePasses(now) =>
          Tick(now);
      }
      handled := true;
    }

    /**
     Any run of requests and expiries: after each of them no pointer dangles, every count is the number of
     references, and the handlers hold nothing. The run stops only if the random pool gives a token that is taken.
     `moments` is what the server went through.
     */
    method Serve(events: seq<Event>) returns (served: nat, ghost moments: seq<Moment>)
      requires Ready() && held == multiset{}
      modifies this
      ensures Ready() && held == multiset{}
      ensures served <= |events| && Chronicle(moments, events[..served])
      ensures moments[0] == Moment(old(Now()), old(db)) && moments[served] == Moment(Now(), db)
      ensures served < |events| ==>
        events[served].LogIn? && events[served].random.Some? && !Unused(heap, db, events[served].random.value)
    {
      hide Quiet, Agreed, Grows, Punctual, Passed;
      served, moments := 0, [Moment(Now(), db)];
      while served < |events|
        invariant served <= |events| && Ready() && held == multiset{}
        invariant Chronicle(moments, events[..served])
        invariant moments[0] == Moment(old(Now()), old(db)) && moments[served] == Moment(Now(), db)
      {
        ghost var before := Moment(Now(), db);
        var handled := Handle(events[served]);
        if !handled {
          return;
        }
        Onward(moments, events, served, before, Moment(Now(), db));
        moments := moments + [Moment(Now(), db)];
        served := served + 1;
      }
    }
  }

  /** The server as it is between two events. */
  datatype Moment = Moment(state: State, db: map<Text, Row>)

  /** The clock after an event that finds some names. */
  ghost function Later(c: map<Text, int>, e: Event, names: set<Text>): map<Text, int> {
    if e.TimePasses? then NotDue(c, e.now) else Stamped(c, names, e.now)
  }

  ghost predicate Passed(m: Moment, e: Event, n: Moment) {
    Clock(n.state) == Later(Clock(m.state), e, FoundBy(m.state, m.db, e))
  }

  /** What happened to the clock at every event of a run. */
  ghost predicate Chronicle(moments: seq<Moment>, events: seq<Event>) {
    |moments| == |events| + 1 && forall i :: 0 <= i < |events| ==> Passed(moments[i], events[i], moments[i + 1])
  }

  lemma Onward(moments: seq<Moment>, events: seq<Event>, k: nat, m: Moment, n: Moment)
    requires k < |events| && Chronicle(moments, events[..k]) && moments[k] == m
    requires Clock(n.state) == Later(Clock(m.state), events[k], FoundBy(m.state, m.db, events[k]))
    ensures Chronicle(moments + [n], events[..k + 1])
  {
    assert Passed(m, events[k], n);
    hide Passed;
    assert events[..k + 1] == events[..k] + [events[k]];
  }

  /** A user in the database who is not online and has a seed given can log in, and the new token leads to the record. */
  method SeedAndLogIn(server: Server, name: Text, crypto: Text, token: Text, now: int) returns (res: int)
    requires server.Ready() && server.held == multiset{} && name in server.db
    requires name in server.users ==> !server.heap[server.users[name]].isOnline
    requires |crypto| == 64 && Unused(server.heap, server.db, token)
    modifies server
    ensures server.Ready() && server.held == multiset{}
    ensures res == SERR_SUCCESS && name in server.users && token in server.tokens && server.tokens[token] == server.users[name]
  {
    hide Quiet, Safe, Agreed, Grows;
    ghost var was, db := server.Now(), server.db;
    QuietIsBalanced(was);
    if name in was.users {
      UserOfName(was, name);
    }
    var seeded := server.Seed(Some(name), true, true, now);
    SeedUnused(was, server.Now(), db, server.users[name], token);
    res := server.Login(Some(name), Some(crypto), true, true, Some(token), true, now);
  }

  /**
   Whatever the database, a run that goes wrong where two users have one token: two requests that find
   them and come to nothing, and one record has a count that is not a reference.
   */
  method SharedTokens(db: map<Text, Row>, m: Text, n: Text, now: int) returns (server: Server)
    requires m in db && n in db && m != n && db[m].token == db[n].token != NO_TOKEN
    ensures fresh(server) && server.db == db && !Balanced(server.Now())
  {
    hide Balanced, Looked, Quiet, Safe;
    server := new Server(db);
    NobodyIsQuiet();
    QuietIsBalanced(NOBODY);
    NobodyStands();
    ghost var first := server.Refuse(m, true, now);
    LookedNew(NOBODY, db, first);
    QuietIsBalanced(server.Now());
    ghost var second := server.Refuse(n, true, now);
    SecondLookup(Looked(NOBODY, db, first), db, second);
  }

  lemma SeedUnused(s: State, t: State, db: map<Text, Row>, usr: Ref, token: Text)
    requires Unused(s.heap, db, token) && FromDatabase(s.heap, t.heap, db) && OnlySeeded(s.heap, t.heap, usr)
    ensures Unused(t.heap, db, token)
  {
  }

  /** What happens to the server, with the answers it gets. */
  datatype Event =
    | Message(token: Option<Text>, found: Option<Text>, up: bool, sendto: Option<Text>, upTo: bool, bound: bool, sent: bool, now: int)
    | AskSeed(username: Option<Text>, up: bool, drawn: bool, now: int)
    | LogIn(username: Option<Text>, crypto: Option<Text>, right: bool, up: bool, random: Option<Text>, stores: bool, now: int)
    | LogOut(token: Option<Text>, found: Option<Text>, up: bool, invalidated: bool, now: int)
    | TimePasses(now: int)

  /** The flags of a record play no part in its lifetime. */
  lemma FlagsKeep(s: State, t: State, db: map<Text, Row>, r: Ref, online: bool, seed: bool)
    requires Quiet(s) && Agreed(s, db) && r in s.heap
    requires t == s.(heap := s.heap[r := s.heap[r].(isOnline := online, isSeedExisted := seed)])
    ensures Quiet(t) && Agreed(t, db) && (Punctual(s) ==> Punctual(t) && Clock(t) == Clock(s))
  {
    if Punctual(s) {
      SameClock(s, t);
    }
    hide Punctual, Clock;
    FlagsAreSafe(s, t, r, online, seed);
    forall q | q in t.heap ensures t.heap[q].useCnt == References(t, q) && t.heap[q].token == s.heap[q].token {
      FlagsCount(s, t, r, online, seed, q);
    }
    SameAgreed(s, t, db, r);
    hide Safe, References, Agreed;
  }

  lemma FlagsCount(s: State, t: State, r: Ref, online: bool, seed: bool, q: Ref)
    requires Quiet(s) && r in s.heap && q in s.heap
    requires t == s.(heap := s.heap[r := s.heap[r].(isOnline := online, isSeedExisted := seed)])
    ensures t.heap[q].useCnt == References(t, q) && t.heap[q].token == s.heap[q].token
  {
    hide Safe, DistinctTokens;
    CountIs(s, q);
  }

  lemma UserIsNamed(s: State, r: Ref)
    requires Safe(s) && r in s.heap
    ensures s.heap[r].username in s.users && s.users[s.heap[r].username] == r
  {
  }

  lemma FlagsGrow(s: State, t: State, r: Ref)
    requires Grows(s, t) && r in s.heap
    ensures r in t.heap && t.heap[r].isOnline == s.heap[r].isOnline && t.heap[r].isSeedExisted == s.heap[r].isSeedExisted
  {
  }

  lemma FlagsAreSafe(s: State, t: State, r: Ref, online: bool, seed: bool)
    requires Safe(s) && r in s.heap
    requires t == s.(heap := s.heap[r := s.heap[r].(isOnline := online, isSeedExisted := seed)])
    ensures Safe(t)
  {
  }

  lemma NoneFromDatabase(s: State, db: map<Text, Row>)
    ensures FromDatabase(s.heap, s.heap, db)
  {
  }

  lemma StillFromDatabase(s: State, t: State, u: State, usr: Ref, db: map<Text, Row>)
    requires FromDatabase(s.heap, t.heap, db) && u.heap.Keys == t.heap.Keys && OnlySeeded(t.heap, u.heap, usr)
    ensures FromDatabase(s.heap, u.heap, db)
  {
  }

  /** Records that grow and then differ in the seed of one of them differ in that only. */
  lemma SeedIsOnly(s: State, t: State, u: State, usr: Ref)
    requires Grows(s, t) && OnlySeeded(t.heap, u.heap, usr)
    ensures OnlySeeded(s.heap, u.heap, usr)
  {
  }

  lemma PutAndTaken(m: map<Text, Ref>, k: Text, r: Ref)
    ensures m[k := r] - {k} == m - {k}
  {
  }

  lemma TokenStays(s: State, t: State, r: Ref)
    requires Grows(s, t) && r in s.heap
    ensures r in t.heap && t.heap[r].token == s.heap[r].token && t.heap[r].isOnline == s.heap[r].isOnline
  {
  }

  lemma BothHeld(held: multiset<Ref>, from: Ref, to: Ref)
    requires from in held
    ensures multiset{from, to} <= held + multiset{to}
    ensures held + multiset{to} - multiset{from, to} == held - multiset{from}
  {
  }

  lemma StillUnused(s: State, t: State, db: map<Text, Row>, token: Text)
    requires Unused(s.heap, db, token) && Grows(s, t) && FromDatabase(s.heap, t.heap, db)
    ensures Unused(t.heap, db, token)
  {
  }

  lemma SameAgreed(s: State, t: State, db: map<Text, Row>, r: Ref)
    requires Agreed(s, db) && r in s.heap && t.heap.Keys == s.heap.Keys
    requires forall q :: q in s.heap ==> t.heap[q].token == s.heap[q].token && t.heap[q].username == s.heap[q].username
    ensures Agreed(t, db)
  {
  }

  lemma FewerAgreed(s: State, t: State, db: map<Text, Row>)
    requires Agreed(s, db) && forall q :: q in t.heap ==> q in s.heap && t.heap[q] == s.heap[q]
    ensures Agreed(t, db)
  {
  }

  /** Some records whose time has come are gone from `s` in `t`, with their tokens, and nothing else. */
  ghost predicate Reduced(s: State, t: State, now: int) {
    && (forall r :: r in t.heap ==> r in s.heap && t.heap[r] == s.heap[r])
    && (forall r :: r in s.heap && r !in t.heap ==> s.heap[r].timeout <= now)
    && (forall k :: k in t.tokens <==> k in s.tokens && s.tokens[k] in t.heap)
    && (forall k :: k in t.tokens ==> t.tokens[k] == s.tokens[k])
  }

  lemma ReducedNot(s: State, now: int)
    requires Quiet(s)
    ensures Reduced(s, s, now)
  {
  }

  lemma ReducedMore(s: State, t: State, u: State, now: int, r: Ref)
    requires Reduced(s, t, now) && Quiet(t) && r in t.heap && t.heap[r].timeout <= now
    requires u.heap == t.heap - {r} && u.tokens == t.tokens - {t.heap[r].token}
    ensures Reduced(s, u, now)
  {
    hide Quiet;
    forall k ensures k in u.tokens <==> k in s.tokens && s.tokens[k] in u.heap {
      ReducedAt(s, t, now, k);
      if k in t.tokens {
        TokensApart(t, r, k);
      }
    }
    ReducedTokens(s, t, u, now);
  }

  lemma ReducedAt(s: State, t: State, now: int, k: Text)
    requires Reduced(s, t, now)
    ensures k in t.tokens <==> k in s.tokens && s.tokens[k] in t.heap
    ensures k in t.tokens ==> t.tokens[k] == s.tokens[k]
  {
  }

  lemma ReducedTokens(s: State, t: State, u: State, now: int)
    requires Reduced(s, t, now) && forall k :: k in u.tokens ==> k in t.tokens && u.tokens[k] == t.tokens[k]
    ensures forall k :: k in u.tokens ==> u.tokens[k] == s.tokens[k]
  {
  }

  lemma TokensApart(t: State, r: Ref, k: Text)
    requires Quiet(t) && r in t.heap && k in t.tokens
    ensures t.tokens[k] in t.heap && (k == t.heap[r].token <==> t.tokens[k] == r)
  {
    hide Balanced, References;
  }

  lemma ReducedFully(s: State, t: State, now: int)
    requires Reduced(s, t, now) && forall r :: r in t.heap ==> now < t.heap[r].timeout
    ensures t.heap == map r | r in s.heap && now < s.heap[r].timeout :: s.heap[r]
    ensures forall k :: k in t.tokens <==> k in s.tokens && s.tokens[k] in t.heap
  {
  }

  /** The token of a user read in is nobody's in memory. */
  lemma RowIsFresh(s: State, db: map<Text, Row>, name: Text, addr: Ref)
    requires Safe(s) && Agreed(s, db) && name in db && name !in s.users && addr !in s.heap
    ensures Sound(s, Some(db[name]), addr)
  {
  }

  /** Finding a user who is in memory reads in nothing. */
  lemma KnownIsFound(s: State, name: Text, addr: Ref, now: int)
    requires Safe(s) && name in s.users
    ensures var t := ByName(s, name, None, addr, now).0;
      t.users == s.users && t.tokens == s.tokens && t.heap.Keys == s.heap.Keys
  {
  }

  /** What finding a user who is not in memory reads in. */
  lemma NewIsFound(s: State, name: Text, row: Row, addr: Ref, now: int)
    requires Safe(s) && name !in s.users && addr !in s.heap
    ensures ByName(s, name, Some(row), addr, now).1 == Some(addr)
    ensures var t := ByName(s, name, Some(row), addr, now).0;
      && t.users == s.users[name := addr] && t.heap.Keys == s.heap.Keys + {addr}
      && t.tokens == (if row.token == NO_TOKEN then s.tokens else s.tokens[row.token := addr])
      && t.heap[addr].username == name && t.heap[addr].token == row.token
      && !t.heap[addr].isOnline && !t.heap[addr].isSeedExisted
  {
  }

  /** What get_user_by_name gives and keeps between requests. */
  lemma FoundKeeps(s: State, t: State, usr: Option<Ref>, db: map<Text, Row>, name: Text, up: bool, addr: Ref, now: int)
    requires Quiet(s) && Agreed(s, db) && Punctual(s) && addr !in s.heap
    requires (t, usr) == ByName(s, name, RowOf(db, Lookup(name, up, addr, now)), addr, now)
    ensures Quiet(t) && Agreed(t, db) && Grows(s, t) && FromDatabase(s.heap, t.heap, db)
    ensures usr.Some? <==> name in s.users || (up && name in db)
    ensures usr.None? ==> t == s
    ensures usr.Some? ==> usr.value in t.heap && t.heap[usr.value].username == name && t.held == s.held + multiset{usr.value}
    ensures name in s.users ==> usr == Some(s.users[name]) && t.users == s.users && t.tokens == s.tokens
    ensures usr.Some? && name !in s.users ==>
      && t.users == s.users[name := usr.value]
      && t.tokens == (if db[name].token == NO_TOKEN then s.tokens else s.tokens[db[name].token := usr.value])
      && t.heap[usr.value].token == db[name].token && !t.heap[usr.value].isOnline && !t.heap[usr.value].isSeedExisted
    ensures Punctual(t) && Clock(t) == Stamped(Clock(s), if usr.Some? then {name} else {}, now)
    ensures usr.Some? ==> t.heap[usr.value].timeout == now + 120 && t.heap[usr.value].delaySec == 120
  {
    hide Punctual, Clock, Stamped, Safe, Balanced, DistinctTokens, References, Grows, FreshToken, Agreed, FromDatabase, ByName;
    var row := RowOf(db, Lookup(name, up, addr, now));
    if name in s.users {
      RowOfKnown(s, name, row, addr, now);
      ByNameKeeps(s, name, None, addr, now);
      KnownIsFound(s, name, addr, now);
    } else {
      if row.Some? {
        RowIsFresh(s, db, name, addr);
        NewIsFound(s, name, db[name], addr, now);
      }
      ByNameKeeps(s, name, row, addr, now);
    }
    FoundAgrees(s, t, db, name);
    ByNameStamps(s, name, row, addr, now);
    if usr.Some? {
      UserIsNamed(t, usr.value);
      StampOf(s, t, name, now);
    }
  }

  lemma FoundAgrees(s: State, t: State, db: map<Text, Row>, name: Text)
    requires Agreed(s, db) && Grows(s, t)
    requires forall r :: r in t.heap && r !in s.heap ==> name in db && t.heap[r].username == name && t.heap[r].token == db[name].token
    ensures Agreed(t, db) && FromDatabase(s.heap, t.heap, db)
  {
    StillAgreed(s, t, db, name);
  }

  /** Finding a user brings at most its own token into memory. */
  lemma StillAgreed(s: State, t: State, db: map<Text, Row>, name: Text)
    requires Agreed(s, db) && Grows(s, t)
    requires forall r :: r in t.heap && r !in s.heap ==> name in db && t.heap[r].username == name && t.heap[r].token == db[name].token
    ensures Agreed(t, db)
  {
  }

  lemma NewTokenName(s: State, r: Ref, random: Option<Text>, stored: bool, now: int)
    requires Quiet(s) && r in s.heap
    requires random.Some? ==> random.value != NO_TOKEN && FreshToken(s, r, random.value)
    ensures var t := NewToken(s, r, random, stored, now);
      r in t.heap && t.heap[r].username == s.heap[r].username
  {
    hide Safe, Balanced, DistinctTokens, References;
    NewTokenKeeps(s, r, random, stored, now);
    if random.Some? && s.heap[r].token in s.tokens {
      FreeLeavesToken(s, r);
    }
  }

  /** A new token that was nobody's, in memory and perhaps in the database. */
  lemma TokenAgreed(s: State, t: State, before: map<Text, Row>, after: map<Text, Row>, r: Ref)
    requires Safe(s) && Agreed(s, before) && r in s.heap && t.heap.Keys == s.heap.Keys
    requires forall q :: q in s.heap && q != r ==> t.heap[q] == s.heap[q]
    requires t.heap[r].username == s.heap[r].username && Unused(s.heap, before, t.heap[r].token)
    requires after == before ||
      (s.heap[r].username in before &&
       after == before[s.heap[r].username := before[s.heap[r].username].(token := t.heap[r].token)])
    ensures Agreed(t, after)
  {
  }

  lemma UnusedIsFresh(s: State, db: map<Text, Row>, r: Ref, token: Text)
    requires Unused(s.heap, db, token)
    ensures token != NO_TOKEN && FreshToken(s, r, token)
  {
  }
}
