/** The access check run before a premium feature: an ordered series of
    refusals, then either free access on a time-limited plan or one credit
    taken on the Pay-As-You-Go plan. */
module UserCredits {
  import opened Wrappers
  import opened Accounts

  const PayAsYouGo: string := "Pay-As-You-Go"

  const NotAuthenticated: string := "Utilisateur non authentifié."
  const NoSuchUser: string := "L'utilisateur n'existe pas."
  const NoActiveSubscription: string := "Vous n'avez pas d'abonnement actif."
  const SubscriptionExpired: string := "Votre abonnement a expiré."
  const NoCreditsLeft: string := "Vous n'avez plus de crédits. Veuillez recharger votre compte."

  /** `subscription.credits || 0`: a missing count reads as zero. */
  function Credits(s: Subscription): int {
    if s.credits.Some? then s.credits.value else 0
  }

  /** `status === 'active'`. */
  predicate IsActive(s: Subscription) {
    s.status == Some("active")
  }

  /** A time-limited plan is over once its end date lies strictly in the past;
      a plan without an end date never is. */
  predicate IsExpired(s: Subscription, now: Instant) {
    s.endDate.Some? && s.endDate.value < now
  }

  /** The outcome of the check: refused with a message, let through for free,
      or let through for one credit. */
  datatype Decision = Refuse(message: string) | Grant | Charge

  /** The checks in the order the action makes them; the first that fails
      decides. */
  function Decide(users: map<string, UserRecord>, userId: string, now: Instant): Decision {
    if userId == [] then Refuse(NotAuthenticated)
    else if userId !in users then Refuse(NoSuchUser)
    else
      var sub := users[userId].subscription;
      if sub.None? || !IsActive(sub.value) then Refuse(NoActiveSubscription)
      else if sub.value.plan != Some(PayAsYouGo) then
        if IsExpired(sub.value, now) then Refuse(SubscriptionExpired) else Grant
      else if Credits(sub.value) < 1 then Refuse(NoCreditsLeft)
      else Charge
  }

  /** `increment(-1)` on the stored credit count; nothing else in the
      document changes. */
  function Deducted(rec: UserRecord): (r: UserRecord)
    requires rec.subscription.Some?
    ensures r.profile == rec.profile && r.subscription.Some?
    ensures r.subscription.value == rec.subscription.value.(credits := Some(Credits(rec.subscription.value) - 1))
  {
    var s := rec.subscription.value;
    rec.(subscription := Some(s.(credits := Some(Credits(s) - 1))))
  }

  /** The collection after the check. */
  function AfterCheck(users: map<string, UserRecord>, userId: string, now: Instant): map<string, UserRecord> {
    if Decide(users, userId, now) == Charge then users[userId := Deducted(users[userId])] else users
  }

  /** `checkAndDeductCredits`: the same checks made one after the other on the
      stored document, and the credit taken in place. The Firestore read
      (`getDoc`) and write (`updateDoc`) either succeed or reject with
      Firestore's own error: `readFailure` and `writeFailure` are that error,
      when there is one. A rejected call ends the action with its error and
      leaves the collection as it was. */
  method CheckAndDeductCredits(store: UserStore, userId: string, now: Instant,
                               readFailure: Option<string>, writeFailure: Option<string>)
    returns (r: Result<(), string>)
    modifies store
    ensures readFailure.None? && writeFailure.None? ==>
      && (r.Err? <==> Decide(old(store.users), userId, now).Refuse?)
      && (r.Err? ==> r.error == Decide(old(store.users), userId, now).message)
      && store.users == AfterCheck(old(store.users), userId, now)
    ensures userId != [] && readFailure.Some? ==>
      r == Err(readFailure.value) && store.users == old(store.users)
    ensures (userId == [] || readFailure.None?) && Decide(old(store.users), userId, now) != Charge ==>
      && r == (if Decide(old(store.users), userId, now).Refuse?
               then Err(Decide(old(store.users), userId, now).message) else Ok(()))
      && store.users == old(store.users)
    ensures readFailure.None? && Decide(old(store.users), userId, now) == Charge ==>
      if writeFailure.Some? then r == Err(writeFailure.value) && store.users == old(store.users)
      else r == Ok(()) && store.users == AfterCheck(old(store.users), userId, now)
  {
    if userId == [] {
      return Err(NotAuthenticated);
    }
    if readFailure.Some? {
      return Err(readFailure.value);
    }
    if userId !in store.users {
      return Err(NoSuchUser);
    }
    var record := store.users[userId];
    var subscription := record.subscription;
    if subscription.None? || subscription.value.status != Some("active") {
      return Err(NoActiveSubscription);
    }
    if subscription.value.plan != Some(PayAsYouGo) {
      if subscription.value.endDate.Some? && subscription.value.endDate.value < now {
        return Err(SubscriptionExpired);
      }
      return Ok(());
    }
    var credits := if subscription.value.credits.Some? then subscription.value.credits.value else 0;
    if credits < 1 {
      return Err(NoCreditsLeft);
    }
    if writeFailure.Some? {
      return Err(writeFailure.value);
    }
    store.users := store.users[userId := record.(subscription := Some(subscription.value.(credits := Some(credits - 1))))];
    return Ok(());
  }

  // ----- What the order of the checks means -----

  /** Each outcome, stated on its own rather than by position in the chain. */
  lemma DecideOutcomes(users: map<string, UserRecord>, userId: string, now: Instant)
    ensures Decide(users, userId, now) == Refuse(NotAuthenticated) <==> userId == []
    ensures Decide(users, userId, now) == Refuse(NoSuchUser) <==> userId != [] && userId !in users
    ensures Decide(users, userId, now) == Refuse(NoActiveSubscription) <==>
      userId != [] && userId in users &&
      (users[userId].subscription.None? || !IsActive(users[userId].subscription.value))
    ensures Decide(users, userId, now) == Refuse(SubscriptionExpired) <==>
      userId != [] && userId in users && HasActive(users[userId]) &&
      users[userId].subscription.value.plan != Some(PayAsYouGo) && IsExpired(users[userId].subscription.value, now)
    ensures Decide(users, userId, now) == Grant <==>
      userId != [] && userId in users && HasActive(users[userId]) &&
      users[userId].subscription.value.plan != Some(PayAsYouGo) && !IsExpired(users[userId].subscription.value, now)
    ensures Decide(users, userId, now) == Refuse(NoCreditsLeft) <==>
      userId != [] && userId in users && HasActive(users[userId]) &&
      users[userId].subscription.value.plan == Some(PayAsYouGo) && Credits(users[userId].subscription.value) < 1
    ensures Decide(users, userId, now) == Charge <==>
      userId != [] && userId in users && HasActive(users[userId]) &&
      users[userId].subscription.value.plan == Some(PayAsYouGo) && Credits(users[userId].subscription.value) >= 1
  {
  }

  predicate HasActive(rec: UserRecord) {
    rec.subscription.Some? && IsActive(rec.subscription.value)
  }

  /** A refusal or free access writes nothing; a charge takes exactly one
      credit from that user and changes nothing else, in that document or in
      any other. */
  lemma CheckChanges(users: map<string, UserRecord>, userId: string, now: Instant)
    ensures Decide(users, userId, now) != Charge ==> AfterCheck(users, userId, now) == users
    ensures Decide(users, userId, now) == Charge ==>
      var after := AfterCheck(users, userId, now);
      && after.Keys == users.Keys
      && (forall id | id in users && id != userId :: after[id] == users[id])
      && after[userId].profile == users[userId].profile
      && after[userId].subscription == Some(users[userId].subscription.value.(credits := Some(Credits(users[userId].subscription.value) - 1)))
      && Credits(after[userId].subscription.value) == Credits(users[userId].subscription.value) - 1 >= 0
  {
  }

  /** No stored credit count is negative. */
  predicate CreditsNonNegative(users: map<string, UserRecord>) {
    forall id | id in users && users[id].subscription.Some? :: Credits(users[id].subscription.value) >= 0
  }

  /** The check never drives a credit count below zero. */
  lemma CheckKeepsCreditsNonNegative(users: map<string, UserRecord>, userId: string, now: Instant)
    requires CreditsNonNegative(users)
    ensures CreditsNonNegative(AfterCheck(users, userId, now))
  {
    var after := AfterCheck(users, userId, now);
    if Decide(users, userId, now) == Charge {
      forall id | id in after && after[id].subscription.Some?
        ensures Credits(after[id].subscription.value) >= 0
      {
        if id == userId {
          assert Credits(users[id].subscription.value) >= 1;
        }
      }
    }
  }

  /** A user whose Pay-As-You-Go account holds `n` credits gets exactly `n`
      charged checks in a row; the next one is refused. */
  lemma {:induction false} CreditsLastExactly(users: map<string, UserRecord>, userId: string, now: Instant, n: nat)
    requires userId != [] && userId in users && HasActive(users[userId])
    requires users[userId].subscription.value.plan == Some(PayAsYouGo)
    requires Credits(users[userId].subscription.value) == n
    ensures Checks(users, userId, now, n + 1) == n
    decreases n
  {
    if n > 0 {
      var after := AfterCheck(users, userId, now);
      assert Decide(users, userId, now) == Charge;
      assert Credits(after[userId].subscription.value) == n - 1;
      CreditsLastExactly(after, userId, now, n - 1);
    }
  }

  /** How many of `k` checks in a row charge a credit, stopping at the first
      that does not. */
  function Checks(users: map<string, UserRecord>, userId: string, now: Instant, k: nat): nat
    decreases k
  {
    if k == 0 || Decide(users, userId, now) != Charge then 0
    else 1 + Checks(AfterCheck(users, userId, now), userId, now, k - 1)
  }

  /** The expiry comparison is strict: a plan ending at this very instant still
      grants access, and one that ended a millisecond ago does not. */
  lemma ExpiryIsStrict(s: Subscription, now: Instant)
    requires s.endDate == Some(now)
    ensures !IsExpired(s, now) && IsExpired(s, now + 1)
  {
  }
}
