/**
 Refresh sessions: the token table and its statements, and the service steps that use
 them. A refresh is two steps, finding the session and rotating it, and any other step
 may land in between. Hashes stand for tokens; expiry is judged at the step's own time.
 */
module Sessions {
  import opened Results

  type Hash = nat
  type User = nat
  type Time = nat
  type Request = nat

  /**
   A row of the token table. `root` is the model's own: it records the login token the
   lineage started with, and no statement reads it.
   */
  datatype Session = Session(user: User, expires: Time, revoked: bool, root: Hash)

  type Table = map<Hash, Session>

  // ----- statements -----

  predicate Live(t: Table, h: Hash) {
    h in t && !t[h].revoked
  }

  predicate IsActive(t: Table, h: Hash, now: Time) {
    Live(t, h) && t[h].expires > now
  }

  function Revoked(t: Table, h: Hash): Table {
    if h in t then t[h := t[h].(revoked := true)] else t
  }

  function RevokedAll(t: Table, user: User): Table {
    map h | h in t :: if t[h].user == user then t[h].(revoked := true) else t[h]
  }

  predicate RotateSucceeds(t: Table, old': Hash, new': Hash, now: Time) {
    IsActive(t, old', now) && new' !in t
  }

  function Rotated(t: Table, old': Hash, new': Hash, user: User, expires: Time): Table
    requires old' in t
  {
    Revoked(t, old')[new' := Session(user, expires, false, t[old'].root)]
  }

  // ----- interleaved service steps -----

  /** `found` holds the refreshes between their lookup and their rotation. */
  datatype State = State(tokens: Table, found: map<Request, (Hash, User)>)

  datatype Event =
    | Login(hash: Hash, user: User, expires: Time)
    | Find(request: Request, hash: Hash, now: Time)
    | Rotate(request: Request, replacement: Hash, expires: Time, now: Time)
    | GiveUp(request: Request)
    | Logout(hash: Hash)
    | RevokeAll(user: User)

  /** Every event is possible at any time; one that does not apply changes nothing. */
  function Apply(s: State, e: Event): State {
    match e
    case Login(hash, user, expires) =>
      if hash in s.tokens then s else s.(tokens := s.tokens[hash := Session(user, expires, false, hash)])
    case Find(request, hash, now) =>
      if request in s.found || !IsActive(s.tokens, hash, now) then s
      else s.(found := s.found[request := (hash, s.tokens[hash].user)])
    case Rotate(request, replacement, expires, now) =>
      if request !in s.found then s else
        var (hash, user) := s.found[request];
        State(if RotateSucceeds(s.tokens, hash, replacement, now)
              then Rotated(s.tokens, hash, replacement, user, expires) else s.tokens,
              s.found - {request})
    case GiveUp(request) => s.(found := s.found - {request})
    case Logout(hash) => s.(tokens := Revoked(s.tokens, hash))
    case RevokeAll(user) => s.(tokens := RevokedAll(s.tokens, user))
  }

  /** The event is a refresh that succeeds for this token. */
  predicate Refreshes(s: State, e: Event, hash: Hash) {
    e.Rotate? && e.request in s.found && s.found[e.request].0 == hash
    && RotateSucceeds(s.tokens, hash, e.replacement, e.now)
  }

  // ----- invariant -----

  ghost predicate IsRoot(t: Table, root: Hash, user: User) {
    root in t && t[root].root == root && t[root].user == user
  }

  /** Every lineage starts at a token of its own, and belongs to one user. */
  ghost predicate Rooted(t: Table) {
    forall h | h in t :: IsRoot(t, t[h].root, t[h].user)
  }

  ghost predicate OneLivePerLineage(t: Table) {
    forall h, k | Live(t, h) && Live(t, k) && t[h].root == t[k].root :: h == k
  }

  ghost predicate FoundKnown(s: State) {
    forall r | r in s.found :: s.found[r].0 in s.tokens && s.tokens[s.found[r].0].user == s.found[r].1
  }

  ghost predicate Inv(s: State) {
    Rooted(s.tokens) && OneLivePerLineage(s.tokens) && FoundKnown(s)
  }

  ghost predicate Keeps(t: Table, t': Table, h: Hash)
    requires h in t
  {
    && h in t' && t'[h].user == t[h].user && t'[h].expires == t[h].expires && t'[h].root == t[h].root
    && (t[h].revoked ==> t'[h].revoked)
  }

  ghost predicate HasLive(t: Table, root: Hash) {
    exists k :: Live(t, k) && t[k].root == root
  }

  /**
   How a step may change the table: rows stay, revoked rows stay revoked, and a new row
   either starts a lineage or continues one that was live.
   */
  ghost predicate Evolves(t: Table, t': Table) {
    && (forall h | h in t :: Keeps(t, t', h))
    && (forall h | h in t' && h !in t :: t'[h].root == h || HasLive(t, t'[h].root))
  }

  lemma LoginStep(t: Table, hash: Hash, user: User, expires: Time)
    requires Rooted(t) && OneLivePerLineage(t) && hash !in t
    ensures var t' := t[hash := Session(user, expires, false, hash)];
            Rooted(t') && OneLivePerLineage(t') && Evolves(t, t')
  {
    var t' := t[hash := Session(user, expires, false, hash)];
    forall h | h in t' ensures IsRoot(t', t'[h].root, t'[h].user) {
      if h != hash { assert IsRoot(t, t[h].root, t[h].user); }
    }
    forall h, k | Live(t', h) && Live(t', k) && t'[h].root == t'[k].root ensures h == k {
      if h != hash { assert IsRoot(t, t[h].root, t[h].user); }
      if k != hash { assert IsRoot(t, t[k].root, t[k].user); }
    }
  }

  /** Revoking any rows keeps the table's invariants. */
  lemma RevokingStep(t: Table, t': Table)
    requires Rooted(t) && OneLivePerLineage(t) && t'.Keys == t.Keys
    requires forall h | h in t :: Keeps(t, t', h)
    ensures Rooted(t') && OneLivePerLineage(t') && Evolves(t, t')
  {
    forall h | h in t' ensures IsRoot(t', t'[h].root, t'[h].user) {
      assert IsRoot(t, t[h].root, t[h].user) && Keeps(t, t', h) && Keeps(t, t', t[h].root);
    }
    forall h, k | Live(t', h) && Live(t', k) && t'[h].root == t'[k].root ensures h == k {
      assert Keeps(t, t', h) && Keeps(t, t', k);
      assert Live(t, h) && Live(t, k);
    }
  }

  lemma RotationStep(t: Table, old': Hash, new': Hash, expires: Time, now: Time)
    requires Rooted(t) && OneLivePerLineage(t) && RotateSucceeds(t, old', new', now)
    ensures var t' := Rotated(t, old', new', t[old'].user, expires);
            Rooted(t') && OneLivePerLineage(t') && Evolves(t, t')
  {
    var t1 := Revoked(t, old');
    var t' := Rotated(t, old', new', t[old'].user, expires);
    RevokingStep(t, t1);
    assert IsRoot(t1, t1[old'].root, t1[old'].user);
    forall h | h in t' ensures IsRoot(t', t'[h].root, t'[h].user) {
      if h != new' { assert IsRoot(t1, t1[h].root, t1[h].user); }
    }
    forall h, k | Live(t', h) && Live(t', k) && t'[h].root == t'[k].root ensures h == k {
      OnlyNewIsLive(t, old', new', expires, now, h);
      OnlyNewIsLive(t, old', new', expires, now, k);
    }
    assert Live(t, old');
    forall h | h in t ensures Keeps(t, t', h) { assert Keeps(t, t1, h); }
  }

  lemma OnlyNewIsLive(t: Table, old': Hash, new': Hash, expires: Time, now: Time, h: Hash)
    requires OneLivePerLineage(t) && RotateSucceeds(t, old', new', now)
    ensures var t' := Rotated(t, old', new', t[old'].user, expires);
            Live(t', h) ==> h == new' || (Live(t, h) && t'[h].root == t[h].root && t[h].root != t[old'].root)
  {
    if Live(t, h) && h != old' { assert t[h].root != t[old'].root; }
  }

  /** Each step's table satisfies the table invariants and evolves from the one before. */
  lemma TableStep(s: State, e: Event)
    requires Inv(s)
    ensures var t, t' := s.tokens, Apply(s, e).tokens;
            Rooted(t') && OneLivePerLineage(t') && Evolves(t, t')
  {
    var t, t' := s.tokens, Apply(s, e).tokens;
    match e
    case Login(hash, user, expires) =>
      if hash in t { RevokingStep(t, t); } else { LoginStep(t, hash, user, expires); }
    case Rotate(request, replacement, expires, now) =>
      if request in s.found && RotateSucceeds(t, s.found[request].0, replacement, now) {
        RotationStep(t, s.found[request].0, replacement, expires, now);
      } else {
        RevokingStep(t, t);
      }
    case Find(_, _, _) => RevokingStep(t, t);
    case GiveUp(_) => RevokingStep(t, t);
    case Logout(hash) => RevokingStep(t, Revoked(t, hash));
    case RevokeAll(user) => RevokingStep(t, RevokedAll(t, user));
  }

  lemma FoundStep(s: State, e: Event, r: Request)
    requires Inv(s) && r in Apply(s, e).found
    ensures var f := Apply(s, e).found[r]; f.0 in s.tokens && s.tokens[f.0].user == f.1
  {
    if r in s.found {
      assert s.found[r].0 in s.tokens;
    }
  }

  /** Every step keeps one live token per lineage, whatever lands between a find and its rotation. */
  lemma StepKeepsInv(s: State, e: Event)
    requires Inv(s)
    ensures Inv(Apply(s, e)) && Evolves(s.tokens, Apply(s, e).tokens)
  {
    var s' := Apply(s, e);
    TableStep(s, e);
    forall r | r in s'.found
      ensures s'.found[r].0 in s'.tokens && s'.tokens[s'.found[r].0].user == s'.found[r].1
    {
      FoundStep(s, e, r);
      assert Keeps(s.tokens, s'.tokens, s'.found[r].0);
    }
  }

  const Init := State(map[], map[])

  ghost function RunFrom(s: State, events: seq<Event>): State
    decreases |events|
  {
    if events == [] then s else RunFrom(Apply(s, events[0]), events[1..])
  }

  lemma {:induction false} RunKeepsInv(s: State, events: seq<Event>)
    requires Inv(s)
    ensures Inv(RunFrom(s, events))
    decreases |events|
  {
    if events != [] {
      StepKeepsInv(s, events[0]);
      RunKeepsInv(Apply(s, events[0]), events[1..]);
    }
  }

  /** Over every interleaving, a login's lineage has at most one unrevoked token at any time. */
  lemma OneLiveTokenPerLogin(events: seq<Event>, h: Hash, k: Hash)
    requires var t := RunFrom(Init, events).tokens;
             Live(t, h) && Live(t, k) && t[h].root == t[k].root
    ensures h == k
  {
    RunKeepsInv(Init, events);
  }

  // ----- revocation is permanent, and rotation conserves -----

  lemma {:induction false} RevocationIsPermanent(s: State, events: seq<Event>, h: Hash)
    requires Inv(s) && h in s.tokens && s.tokens[h].revoked
    ensures h in RunFrom(s, events).tokens && RunFrom(s, events).tokens[h].revoked
    decreases |events|
  {
    if events != [] {
      StepKeepsInv(s, events[0]);
      assert Keeps(s.tokens, Apply(s, events[0]).tokens, h);
      RevocationIsPermanent(Apply(s, events[0]), events[1..], h);
    }
  }

  ghost function LiveSet(t: Table): set<Hash> {
    set h | h in t && Live(t, h)
  }

  /** A rotation moves liveness from one token to its replacement; their number never changes. */
  lemma RotationConserves(s: State, e: Event)
    requires Inv(s) && e.Rotate? && e.request in s.found
    ensures var hash := s.found[e.request].0;
            LiveSet(Apply(s, e).tokens) == if Refreshes(s, e, hash) then LiveSet(s.tokens) - {hash} + {e.replacement}
                                           else LiveSet(s.tokens)
    ensures |LiveSet(Apply(s, e).tokens)| == |LiveSet(s.tokens)|
  {
    var hash := s.found[e.request].0;
    var before, after := LiveSet(s.tokens), LiveSet(Apply(s, e).tokens);
    if Refreshes(s, e, hash) {
      assert after == before - {hash} + {e.replacement};
      assert hash in before && e.replacement !in before;
      assert |before - {hash}| == |before| - 1;
    }
  }

  /** How many successful refreshes of one token a run contains. */
  ghost function RefreshCount(s: State, events: seq<Event>, hash: Hash): nat
    decreases |events|
  {
    if events == [] then 0 else
      (if Refreshes(s, events[0], hash) then 1 else 0) + RefreshCount(Apply(s, events[0]), events[1..], hash)
  }

  lemma {:induction false} RevokedNeverRefreshes(s: State, events: seq<Event>, hash: Hash)
    requires Inv(s) && hash in s.tokens && s.tokens[hash].revoked
    ensures RefreshCount(s, events, hash) == 0
    decreases |events|
  {
    if events != [] {
      StepKeepsInv(s, events[0]);
      assert Keeps(s.tokens, Apply(s, events[0]).tokens, hash);
      RevokedNeverRefreshes(Apply(s, events[0]), events[1..], hash);
    }
  }

  /** A refresh token yields at most one successful refresh, however many requests found it active. */
  lemma {:induction false} RefreshedAtMostOnce(s: State, events: seq<Event>, hash: Hash)
    requires Inv(s)
    ensures RefreshCount(s, events, hash) <= 1
    decreases |events|
  {
    if events != [] {
      StepKeepsInv(s, events[0]);
      if Refreshes(s, events[0], hash) {
        RevokedNeverRefreshes(Apply(s, events[0]), events[1..], hash);
      } else {
        RefreshedAtMostOnce(Apply(s, events[0]), events[1..], hash);
      }
    }
  }

  // ----- expiry -----

  /** A lookup finds, and a rotation accepts, exactly a stored token that is unrevoked and not yet expired. */
  lemma UsableExactly(t: Table, hash: Hash, replacement: Hash, now: Time)
    ensures IsActive(t, hash, now) <==> hash in t && !t[hash].revoked && now < t[hash].expires
    ensures RotateSucceeds(t, hash, replacement, now) <==>
            hash in t && !t[hash].revoked && now < t[hash].expires && replacement !in t
  {
  }

  lemma {:induction false} ExpiryNeverChanges(s: State, events: seq<Event>, h: Hash)
    requires Inv(s) && h in s.tokens
    ensures h in RunFrom(s, events).tokens && RunFrom(s, events).tokens[h].expires == s.tokens[h].expires
    decreases |events|
  {
    if events != [] {
      StepKeepsInv(s, events[0]);
      assert Keeps(s.tokens, Apply(s, events[0]).tokens, h);
      ExpiryNeverChanges(Apply(s, events[0]), events[1..], h);
    }
  }

  /**
   Over every run a token is of no use from the expiry on that it was stored with: no
   lookup records it, and no rotation that had found it earlier changes anything.
   */
  lemma ExpiredTokensAreUseless(s: State, events: seq<Event>, hash: Hash, request: Request, replacement: Hash, expires: Time, now: Time)
    requires Inv(s) && hash in s.tokens && s.tokens[hash].expires <= now
    ensures var s' := RunFrom(s, events);
            && Apply(s', Find(request, hash, now)) == s'
            && (request in s'.found && s'.found[request].0 == hash ==>
                  Apply(s', Rotate(request, replacement, expires, now)).tokens == s'.tokens)
  {
    ExpiryNeverChanges(s, events, hash);
  }

  /** A login stores its token, live, for its user, until the expiry given. */
  lemma LoginStoresExactly(s: State, hash: Hash, user: User, expires: Time)
    requires hash !in s.tokens
    ensures var t := Apply(s, Login(hash, user, expires)).tokens;
            && hash in t && !t[hash].revoked && t[hash].user == user && t[hash].expires == expires
            && t - {hash} == s.tokens
  {
  }

  /**
   A rotation succeeds whenever its token is still unrevoked and unexpired and the
   replacement is unused: the old row is revoked, the new one is live, belongs to the same
   user, lasts until the expiry given, and no other row changes.
   */
  lemma RotationWritesExactly(s: State, request: Request, replacement: Hash, expires: Time, now: Time)
    requires Inv(s) && request in s.found
    ensures var hash, t, t' := s.found[request].0, s.tokens, Apply(s, Rotate(request, replacement, expires, now)).tokens;
            && hash in t
            && (t' != t <==> !t[hash].revoked && now < t[hash].expires && replacement !in t)
            && (t' != t ==>
                  && t'.Keys == t.Keys + {replacement}
                  && t'[hash] == t[hash].(revoked := true)
                  && !t'[replacement].revoked && t'[replacement].user == t[hash].user && t'[replacement].expires == expires
                  && t' - {hash, replacement} == t - {hash})
  {
  }

  /** A logout revokes its own token, a reset every token of its user; nothing else changes. */
  lemma RevocationsWriteExactly(s: State, hash: Hash, user: User, h: Hash)
    requires h in s.tokens
    ensures var t := Apply(s, Logout(hash)).tokens;
            t.Keys == s.tokens.Keys && t[h] == if h == hash then s.tokens[h].(revoked := true) else s.tokens[h]
    ensures var t := Apply(s, RevokeAll(user)).tokens;
            t.Keys == s.tokens.Keys && t[h] == if s.tokens[h].user == user then s.tokens[h].(revoked := true) else s.tokens[h]
  {
  }

  /** A lookup that succeeds remembers the token and its user, and changes no row. */
  lemma FindRecordsExactly(s: State, request: Request, hash: Hash, now: Time)
    requires request !in s.found
    ensures var s' := Apply(s, Find(request, hash, now));
            && s'.tokens == s.tokens
            && (request in s'.found <==> hash in s.tokens && !s.tokens[hash].revoked && now < s.tokens[hash].expires)
            && (request in s'.found ==> s'.found[request] == (hash, s.tokens[hash].user))
  {
  }

  // ----- a dead lineage stays dead -----

  ghost predicate Dead(t: Table, root: Hash) {
    root in t && forall h | h in t && t[h].root == root :: t[h].revoked
  }

  lemma DeadStepsToDead(t: Table, t': Table, root: Hash)
    requires Evolves(t, t') && Dead(t, root)
    ensures Dead(t', root)
  {
    assert Keeps(t, t', root);
    forall h | h in t' && t'[h].root == root ensures t'[h].revoked {
      if h in t {
        assert Keeps(t, t', h);
      }
    }
  }

  lemma {:induction false} DeadStaysDead(s: State, events: seq<Event>, root: Hash)
    requires Inv(s) && Dead(s.tokens, root)
    ensures Dead(RunFrom(s, events).tokens, root)
    decreases |events|
  {
    if events != [] {
      StepKeepsInv(s, events[0]);
      DeadStepsToDead(s.tokens, Apply(s, events[0]).tokens, root);
      DeadStaysDead(Apply(s, events[0]), events[1..], root);
    }
  }

  /**
   Logging out with a live token ends its login for good: no later event revives the
   lineage, not even a refresh that had already found the token active.
   */
  lemma LogoutEndsTheLogin(s: State, hash: Hash, events: seq<Event>, h: Hash)
    requires Inv(s) && Live(s.tokens, hash)
    ensures var t := RunFrom(Apply(s, Logout(hash)), events).tokens;
            h in t && t[h].root == s.tokens[hash].root ==> t[h].revoked
  {
    var s' := Apply(s, Logout(hash));
    var root := s.tokens[hash].root;
    StepKeepsInv(s, Logout(hash));
    assert IsRoot(s.tokens, root, s.tokens[hash].user);
    assert forall k | Live(s.tokens, k) && s.tokens[k].root == root :: k == hash;
    assert Dead(s'.tokens, root);
    DeadStaysDead(s', events, root);
  }

  /**
   A password reset ends every login of the user that existed at that moment, for good;
   afterwards only tokens descending from a later login can be live.
   */
  lemma ResetEndsEveryLogin(s: State, user: User, events: seq<Event>, h: Hash)
    requires Inv(s)
    ensures var t := RunFrom(Apply(s, RevokeAll(user)), events).tokens;
            h in t && t[h].user == user && !t[h].revoked ==> t[h].root !in s.tokens
  {
    var s' := Apply(s, RevokeAll(user));
    StepKeepsInv(s, RevokeAll(user));
    RunKeepsInv(s', events);
    var t := RunFrom(s', events).tokens;
    if h in t && t[h].user == user && t[h].root in s.tokens {
      var root := t[h].root;
      assert IsRoot(t, root, user);
      UsersNeverChange(s', events, root);
      ResetKillsLineage(s, user, root);
      DeadStaysDead(s', events, root);
    }
  }

  lemma ResetKillsLineage(s: State, user: User, root: Hash)
    requires Inv(s) && root in s.tokens && s.tokens[root].user == user
    ensures Dead(RevokedAll(s.tokens, user), root)
  {
    forall h | h in s.tokens && s.tokens[h].root == root ensures s.tokens[h].user == user {
      assert IsRoot(s.tokens, s.tokens[h].root, s.tokens[h].user);
    }
  }

  lemma {:induction false} UsersNeverChange(s: State, events: seq<Event>, h: Hash)
    requires Inv(s) && h in s.tokens
    ensures h in RunFrom(s, events).tokens
    ensures RunFrom(s, events).tokens[h].user == s.tokens[h].user && RunFrom(s, events).tokens[h].root == s.tokens[h].root
    decreases |events|
  {
    if events != [] {
      StepKeepsInv(s, events[0]);
      assert Keeps(s.tokens, Apply(s, events[0]).tokens, h);
      UsersNeverChange(Apply(s, events[0]), events[1..], h);
    }
  }

  // ----- the store -----

  class RefreshStore {
    var rows: Table

    constructor ()
      ensures rows == map[]
    {
      rows := map[];
    }

    /** `Store`: refused only by the unique token hash. */
    method Store(hash: Hash, user: User, expires: Time) returns (ok: bool)
      modifies this
      ensures ok <==> hash !in old(rows)
      ensures rows == Apply(State(old(rows), map[]), Login(hash, user, expires)).tokens
    {
      if hash in rows {
        return false;
      }
      rows := rows[hash := Session(user, expires, false, hash)];
      return true;
    }

    /** `FindActive`. */
    method FindActive(hash: Hash, now: Time) returns (user: Option<User>)
      ensures user.Some? <==> hash in rows && !rows[hash].revoked && now < rows[hash].expires
      ensures user.Some? ==> user.value == rows[hash].user
    {
      if hash in rows && !rows[hash].revoked && rows[hash].expires > now {
        return Some(rows[hash].user);
      }
      return None;
    }

    /** `Rotate`: select the active row, revoke it, insert its replacement; one transaction. */
    method Rotate(oldHash: Hash, hash: Hash, user: User, expires: Time, now: Time) returns (ok: bool)
      modifies this
      ensures ok <==> oldHash in old(rows) && !old(rows)[oldHash].revoked && now < old(rows)[oldHash].expires
                      && hash !in old(rows)
      ensures rows == if ok then Rotated(old(rows), oldHash, hash, user, expires) else old(rows)
    {
      var saved := rows;
      if !(oldHash in rows && !rows[oldHash].revoked && rows[oldHash].expires > now) {
        return false;
      }
      var root := rows[oldHash].root;
      rows := rows[oldHash := rows[oldHash].(revoked := true)];
      if hash in rows {
        rows := saved;
        return false;
      }
      rows := rows[hash := Session(user, expires, false, root)];
      return true;
    }

    /** `Revoke`: reports whether an unrevoked row was there to revoke. */
    method Revoke(hash: Hash) returns (ok: bool)
      modifies this
      ensures ok <==> Live(old(rows), hash)
      ensures rows == Revoked(old(rows), hash)
    {
      if hash !in rows || rows[hash].revoked {
        assert rows == Revoked(rows, hash);
        return false;
      }
      rows := rows[hash := rows[hash].(revoked := true)];
      return true;
    }

    /** `RevokeAllForUser`, row by row. */
    method RevokeAllForUser(user: User)
      modifies this
      ensures rows == RevokedAll(old(rows), user)
    {
      ghost var before := rows;
      var pending := rows.Keys;
      while pending != {}
        invariant pending <= before.Keys && rows.Keys == before.Keys
        invariant forall h | h in pending :: rows[h] == before[h]
        invariant forall h | h in before.Keys - pending :: rows[h] == RevokedAll(before, user)[h]
        decreases |pending|
      {
        var h :| h in pending;
        if rows[h].user == user && !rows[h].revoked {
          rows := rows[h := rows[h].(revoked := true)];
        }
        pending := pending - {h};
      }
    }

    /** `Refresh` with nothing in between: find the session, then rotate it. */
    method Refresh(raw: Hash, claimed: User, suspended: bool, replacement: Hash, expires: Time, now: Time) returns (ok: bool)
      modifies this
      ensures ok <==> raw in old(rows) && !old(rows)[raw].revoked && now < old(rows)[raw].expires
                      && replacement !in old(rows) && old(rows)[raw].user == claimed && !suspended
      ensures rows == if ok then Rotated(old(rows), raw, replacement, claimed, expires) else old(rows)
    {
      var stored := FindActive(raw, now);
      if stored.None? || stored.value != claimed || suspended {
        return false;
      }
      ok := Rotate(raw, replacement, claimed, expires, now);
    }
  }
}
