/**
 One-time action tokens (email verification, password reset): the token table, runs of
 its two transactions, and the password reset that consumes a token and ends the sessions.
 */
module ActionTokens {
  import opened Results
  import Sessions

  type Hash = Sessions.Hash
  type User = Sessions.User
  type Time = Sessions.Time

  datatype Purpose = EmailVerification | PasswordReset

  datatype ActionToken = ActionToken(user: User, purpose: Purpose, expires: Time, used: bool)

  type TokenTable = map<Hash, ActionToken>

  // ----- statements -----

  predicate Unused(t: TokenTable, h: Hash) {
    h in t && !t[h].used
  }

  predicate IsFor(token: ActionToken, user: User, purpose: Purpose) {
    token.user == user && token.purpose == purpose
  }

  function WithoutUnused(t: TokenTable, user: User, purpose: Purpose): TokenTable {
    map h | h in t && !(IsFor(t[h], user, purpose) && !t[h].used) :: t[h]
  }

  predicate Consumable(t: TokenTable, purpose: Purpose, hash: Hash, now: Time) {
    Unused(t, hash) && t[hash].purpose == purpose && t[hash].expires > now
  }

  datatype Event =
    | Create(hash: Hash, user: User, purpose: Purpose, expires: Time)
    | Consume(purpose: Purpose, hash: Hash, now: Time)

  /** The unique hash refuses a token already stored; a refused creation deletes nothing. */
  function Apply(t: TokenTable, e: Event): TokenTable {
    match e
    case Create(hash, user, purpose, expires) =>
      var cleared := WithoutUnused(t, user, purpose);
      if hash in cleared then t else cleared[hash := ActionToken(user, purpose, expires, false)]
    case Consume(purpose, hash, now) =>
      if Consumable(t, purpose, hash, now) then t[hash := t[hash].(used := true)] else t
  }

  ghost function Run(t: TokenTable, events: seq<Event>): TokenTable
    decreases |events|
  {
    if events == [] then t else Run(Apply(t, events[0]), events[1..])
  }

  /** A token is consumed exactly by its own purpose, unused, and before its expiry; only its mark changes. */
  lemma ConsumesExactly(t: TokenTable, purpose: Purpose, hash: Hash, now: Time)
    ensures var t' := Apply(t, Consume(purpose, hash, now));
            && t'.Keys == t.Keys
            && (t' != t <==> hash in t && !t[hash].used && t[hash].purpose == purpose && now < t[hash].expires)
            && (t' != t ==> t'[hash] == t[hash].(used := true) && t' - {hash} == t - {hash})
  {
  }

  /** A created token is unused, for its user and purpose, until its expiry; only older unused ones of the pair go. */
  lemma CreatesExactly(t: TokenTable, hash: Hash, user: User, purpose: Purpose, expires: Time, other: Hash)
    requires hash !in t
    ensures var t' := Apply(t, Create(hash, user, purpose, expires));
            && hash in t' && t'[hash] == ActionToken(user, purpose, expires, false)
            && (other != hash && other in t ==>
                  && (other in t' <==> t[other].used || t[other].user != user || t[other].purpose != purpose)
                  && (other in t' ==> t'[other] == t[other]))
            && (other !in t && other != hash ==> other !in t')
  {
  }

  // ----- over whole runs -----

  ghost predicate OneUnused(t: TokenTable) {
    forall h, k | Unused(t, h) && Unused(t, k) && IsFor(t[h], t[k].user, t[k].purpose) :: h == k
  }

  lemma {:induction false} AtMostOneUnused(t: TokenTable, events: seq<Event>)
    requires OneUnused(t)
    ensures OneUnused(Run(t, events))
    decreases |events|
  {
    if events != [] {
      AtMostOneUnused(Apply(t, events[0]), events[1..]);
    }
  }

  predicate Consumes(t: TokenTable, e: Event, hash: Hash) {
    e.Consume? && e.hash == hash && Consumable(t, e.purpose, hash, e.now)
  }

  /** How often a run consumes this token. */
  ghost function Consumptions(t: TokenTable, events: seq<Event>, hash: Hash): nat
    decreases |events|
  {
    if events == [] then 0 else
      (if Consumes(t, events[0], hash) then 1 else 0) + Consumptions(Apply(t, events[0]), events[1..], hash)
  }

  /** A used token stays, used, so that its hash can neither be consumed nor issued again. */
  lemma {:induction false} UsedIsForever(t: TokenTable, events: seq<Event>, hash: Hash)
    requires hash in t && t[hash].used
    ensures Consumptions(t, events, hash) == 0
    ensures hash in Run(t, events) && Run(t, events)[hash] == t[hash]
    decreases |events|
  {
    if events != [] {
      UsedIsForever(Apply(t, events[0]), events[1..], hash);
    }
  }

  /** Whatever is issued in between, no token is ever consumed twice. */
  lemma {:induction false} ConsumedAtMostOnce(t: TokenTable, events: seq<Event>, hash: Hash)
    ensures Consumptions(t, events, hash) <= 1
    decreases |events|
  {
    if events != [] {
      var next := Apply(t, events[0]);
      if Consumes(t, events[0], hash) {
        UsedIsForever(next, events[1..], hash);
      } else {
        ConsumedAtMostOnce(next, events[1..], hash);
      }
    }
  }

  lemma {:induction false} AbsentIsNeverConsumed(t: TokenTable, events: seq<Event>, hash: Hash)
    requires hash !in t
    requires forall e | e in events :: e.Create? ==> e.hash != hash
    ensures Consumptions(t, events, hash) == 0
    decreases |events|
  {
    if events != [] {
      assert events[0] in events;
      assert forall e | e in events[1..] :: e in events;
      AbsentIsNeverConsumed(Apply(t, events[0]), events[1..], hash);
    }
  }

  /** Sending a new link kills the older one for good: its token is never consumed afterwards. */
  lemma SupersededTokensAreDead(t: TokenTable, e: Event, events: seq<Event>, hash: Hash)
    requires e.Create? && e.hash !in t
    requires hash in t && IsFor(t[hash], e.user, e.purpose)
    requires forall later | later in events :: later.Create? ==> later.hash != hash
    ensures Consumptions(Apply(t, e), events, hash) == 0
  {
    if t[hash].used {
      UsedIsForever(Apply(t, e), events, hash);
    } else {
      AbsentIsNeverConsumed(Apply(t, e), events, hash);
    }
  }

  /** Over every run a token is of no use from its expiry on, nor ever for another purpose. */
  lemma {:induction false} ExpiredIsNeverConsumed(t: TokenTable, events: seq<Event>, hash: Hash)
    requires hash in t
    requires forall e | e in events :: e.Consume? && e.hash == hash ==> e.now >= t[hash].expires || e.purpose != t[hash].purpose
    requires forall e | e in events :: e.Create? ==> e.hash != hash
    ensures Consumptions(t, events, hash) == 0
    decreases |events|
  {
    if events != [] {
      var next := Apply(t, events[0]);
      assert events[0] in events && forall e | e in events[1..] :: e in events;
      if hash in next {
        assert next[hash] == t[hash];
        ExpiredIsNeverConsumed(next, events[1..], hash);
      } else {
        AbsentIsNeverConsumed(next, events[1..], hash);
      }
    }
  }

  // ----- the stores and the reset -----

  class ActionTokenStore {
    var rows: TokenTable

    constructor ()
      ensures rows == map[]
    {
      rows := map[];
    }

    /** `CreateActionToken`: delete the unused ones, insert the new one; one transaction. */
    method CreateActionToken(hash: Hash, user: User, purpose: Purpose, expires: Time) returns (ok: bool)
      modifies this
      ensures ok <==> hash !in WithoutUnused(old(rows), user, purpose)
      ensures rows == Apply(old(rows), Create(hash, user, purpose, expires))
    {
      var saved := rows;
      rows := map h | h in rows && !(rows[h].user == user && rows[h].purpose == purpose && !rows[h].used) :: rows[h];
      if hash in rows {
        rows := saved;
        return false;
      }
      rows := rows[hash := ActionToken(user, purpose, expires, false)];
      return true;
    }

    /** `ConsumeActionToken`: the token's user, once. */
    method ConsumeActionToken(purpose: Purpose, hash: Hash, now: Time) returns (user: Option<User>)
      modifies this
      ensures user.Some? <==> hash in old(rows) && !old(rows)[hash].used && old(rows)[hash].purpose == purpose
                              && now < old(rows)[hash].expires
      ensures user.Some? ==> user.value == old(rows)[hash].user
      ensures rows == Apply(old(rows), Consume(purpose, hash, now))
    {
      if hash !in rows || rows[hash].purpose != purpose || rows[hash].used || rows[hash].expires <= now {
        return None;
      }
      rows := rows[hash := rows[hash].(used := true)];
      return Some(rows[hash].user);
    }
  }

  class Accounts {
    var passwords: map<User, nat>
    const tokens: ActionTokenStore
    const refresh: Sessions.RefreshStore

    constructor (tokens: ActionTokenStore, refresh: Sessions.RefreshStore)
      ensures this.tokens == tokens && this.refresh == refresh && passwords == map[]
    {
      this.tokens, this.refresh := tokens, refresh;
      passwords := map[];
    }

    /**
     `ResetPassword` after its format checks. `saved` and `revoked` tell whether the two
     later writes take effect: the token is spent first, so a failure never leaves it usable.
     */
    method ResetPassword(hash: Hash, password: nat, now: Time, saved: bool, revoked: bool) returns (ok: bool)
      modifies this`passwords, tokens, refresh
      ensures tokens.rows == Apply(old(tokens.rows), Consume(PasswordReset, hash, now))
      ensures ok <==> Consumable(old(tokens.rows), PasswordReset, hash, now) && saved && revoked
      ensures passwords == if Consumable(old(tokens.rows), PasswordReset, hash, now) && saved
                           then old(passwords)[old(tokens.rows)[hash].user := password] else old(passwords)
      ensures refresh.rows == if ok then Sessions.RevokedAll(old(refresh.rows), old(tokens.rows)[hash].user) else old(refresh.rows)
    {
      var user := tokens.ConsumeActionToken(PasswordReset, hash, now);
      if user.None? || !saved {
        return false;
      }
      passwords := passwords[user.value := password];
      if !revoked {
        return false;
      }
      refresh.RevokeAllForUser(user.value);
      return true;
    }
  }
}
