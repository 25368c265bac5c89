/** The action run after payment: it checks its input, classifies the plan
    name into a trial or a subscription length, and overwrites five fields of
    the user's subscription. */
module UpdateSubscription {
  import opened Wrappers
  import opened JsBuiltins
  import opened Accounts
  import UserCredits

  const UserIdRequired: string := "User ID is required."
  const NewPlanRequired: string := "New plan is required."
  const WriteFailedMessage: string := "Could not update subscription in Firestore."

  datatype UpdateError = InvalidInput(issues: seq<string>) | WriteFailed

  /** The message the action throws. The issues of a refused input are
      rendered by the schema library, here the parameter `render`. */
  function ErrorText(e: UpdateError, render: seq<string> -> string): (t: string)
    ensures e.InvalidInput? ==> StartsWith(t, "Invalid input: ")
    ensures e.WriteFailed? ==> t == WriteFailedMessage
  {
    match e
    case InvalidInput(issues) =>
      var t := "Invalid input: " + render(issues);
      assert t[..15] == "Invalid input: ";
      t
    case WriteFailed => WriteFailedMessage
  }

  /** `min(1)` on both fields: the issue of every empty one, in field order. */
  function InputIssues(userId: string, newPlan: string): (issues: seq<string>)
    ensures issues == [] <==> userId != [] && newPlan != []
    ensures UserIdRequired in issues <==> userId == []
    ensures NewPlanRequired in issues <==> newPlan == []
  {
    (if userId == [] then [UserIdRequired] else []) + (if newPlan == [] then [NewPlanRequired] else [])
  }

  // ----- The plan name -----

  /** How far away the end date is, left to the calendar to work out. */
  datatype Offset = Days(n: nat) | Months(n: nat) | Years(n: nat)

  /** A free trial: the lower-cased name mentions "essai gratuit". */
  predicate IsTrial(plan: string) {
    Includes(Lower(plan), "essai gratuit")
  }

  /** `getEndDate`'s tests, in their order, on the lower-cased name; a name
      that matches none (Pay-As-You-Go, say) has no end date. */
  function EndOffset(plan: string): Option<Offset> {
    var name := Lower(plan);
    if IsTrial(plan) then Some(Days(7))
    else if Includes(name, "mensuel") then Some(Months(1))
    else if Includes(name, "trimestriel") then Some(Months(3))
    else if Includes(name, "semestriel") then Some(Months(6))
    else if Includes(name, "annuel") then Some(Years(1))
    else None
  }

  /** Each offset, stated on its own: an offset is chosen exactly when its word
      occurs and no word tested before it does. */
  lemma EndOffsetCases(plan: string)
    ensures EndOffset(plan) == Some(Days(7)) <==> IsTrial(plan)
    ensures EndOffset(plan) == Some(Months(1)) <==> !IsTrial(plan) && Includes(Lower(plan), "mensuel")
    ensures EndOffset(plan) == Some(Months(3)) <==>
      !IsTrial(plan) && !Includes(Lower(plan), "mensuel") && Includes(Lower(plan), "trimestriel")
    ensures EndOffset(plan) == Some(Months(6)) <==>
      !IsTrial(plan) && !Includes(Lower(plan), "mensuel") && !Includes(Lower(plan), "trimestriel")
      && Includes(Lower(plan), "semestriel")
    ensures EndOffset(plan) == Some(Years(1)) <==>
      !IsTrial(plan) && !Includes(Lower(plan), "mensuel") && !Includes(Lower(plan), "trimestriel")
      && !Includes(Lower(plan), "semestriel") && Includes(Lower(plan), "annuel")
    ensures EndOffset(plan).None? <==>
      !IsTrial(plan) && !Includes(Lower(plan), "mensuel") && !Includes(Lower(plan), "trimestriel")
      && !Includes(Lower(plan), "semestriel") && !Includes(Lower(plan), "annuel")
  {
  }

  /** The plans the subscription page offers, with the lengths their names
      promise. */
  lemma MonthlyPlan(plan: string)
    requires plan == "Mensuel"
    ensures EndOffset(plan) == Some(Months(1)) && !IsTrial(plan)
  {
    LowerPointwise(plan, "mensuel");
    MonthlyWords(Lower(plan));
  }

  lemma MonthlyWords(name: string)
    requires name == "mensuel"
    ensures !Includes(name, "essai gratuit") && Includes(name, "mensuel")
  {
    IncludesNeedsChar(name, "essai gratuit", 6);
    assert OccursAt(name, "mensuel", 0);
  }

  lemma QuarterlyPlan(plan: string)
    requires plan == "Trimestriel"
    ensures EndOffset(plan) == Some(Months(3))
  {
    LowerPointwise(plan, "trimestriel");
    QuarterlyWords(Lower(plan));
  }

  lemma QuarterlyWords(name: string)
    requires name == "trimestriel"
    ensures !Includes(name, "essai gratuit") && !Includes(name, "mensuel") && Includes(name, "trimestriel")
  {
    IncludesNeedsChar(name, "essai gratuit", 6);
    IncludesNeedsChar(name, "mensuel", 2);
    assert OccursAt(name, "trimestriel", 0);
  }

  lemma HalfYearPlan(plan: string)
    requires plan == "Semestriel"
    ensures EndOffset(plan) == Some(Months(6))
  {
    LowerPointwise(plan, "semestriel");
    HalfYearWords(Lower(plan));
  }

  lemma HalfYearWords(name: string)
    requires name == "semestriel"
    ensures !Includes(name, "essai gratuit") && !Includes(name, "mensuel")
    ensures !Includes(name, "trimestriel") && Includes(name, "semestriel")
  {
    IncludesNeedsChar(name, "essai gratuit", 6);
    IncludesNeedsChar(name, "mensuel", 2);
    assert OccursAt(name, "semestriel", 0);
  }

  lemma YearlyPlan(plan: string)
    requires plan == "Annuel"
    ensures EndOffset(plan) == Some(Years(1))
  {
    LowerPointwise(plan, "annuel");
    YearlyWords(Lower(plan));
  }

  lemma YearlyWords(name: string)
    requires name == "annuel"
    ensures !Includes(name, "essai gratuit") && !Includes(name, "mensuel")
    ensures !Includes(name, "trimestriel") && !Includes(name, "semestriel") && Includes(name, "annuel")
  {
    IncludesNeedsChar(name, "essai gratuit", 6);
    IncludesNeedsChar(name, "mensuel", 0);
    IncludesNeedsChar(name, "trimestriel", 0);
    IncludesNeedsChar(name, "semestriel", 0);
    assert OccursAt(name, "annuel", 0);
  }

  /** Every word the tests look for holds an "e", so a name with no "e" in
      either case gets no end date and is no trial. */
  lemma NoEndDateWithoutE(plan: string)
    requires forall i | 0 <= i < |plan| :: LowerChar(plan[i]) != 'e'
    ensures EndOffset(plan).None? && !IsTrial(plan)
  {
    var name := Lower(plan);
    LowerIndex(plan);
    IncludesNeedsChar(name, "essai gratuit", 0);
    IncludesNeedsChar(name, "mensuel", 1);
    IncludesNeedsChar(name, "trimestriel", 4);
    IncludesNeedsChar(name, "semestriel", 1);
    IncludesNeedsChar(name, "annuel", 4);
  }

  /** Pay-As-You-Go matches no test and gets no end date. */
  lemma PayAsYouGoPlan(plan: string)
    requires plan == "Pay-As-You-Go"
    ensures EndOffset(plan).None? && !IsTrial(plan)
  {
    NoEndDateWithoutE(plan);
  }

  /** A name mentioning "Essai Gratuit" anywhere is a seven-day trial, whatever
      else it mentions: "Mensuel (Essai Gratuit)" (before = "Mensuel (",
      after = ")") gets seven days, not a month, because the trial test comes
      first. */
  lemma FreeTrialAnywhere(before: string, after: string)
    ensures IsTrial(before + "Essai Gratuit" + after)
    ensures EndOffset(before + "Essai Gratuit" + after) == Some(Days(7))
  {
    var words := "Essai Gratuit";
    var trial := "essai gratuit";
    LowerPointwise(words, trial);
    LowerAppend(before, words);
    LowerAppend(before + words, after);
    var name := Lower(before + words + after);
    assert name == Lower(before) + trial + Lower(after);
    assert name[|before|..|before| + |trial|] == trial;
    assert OccursAt(name, trial, |before|);
  }

  /** The trial test runs first, so any name mentioning a free trial gets seven
      days whatever else it mentions. */
  lemma TrialComesFirst(plan: string)
    requires IsTrial(plan)
    ensures EndOffset(plan) == Some(Days(7))
  {
  }

  // ----- The write -----

  /** The end date: the offset applied to the action's own clock `now` by the
      calendar `shift`, or none. */
  function EndDate(plan: string, now: Instant, shift: (Instant, Offset) -> Instant): Option<Instant> {
    match EndOffset(plan)
    case None => None
    case Some(offset) => Some(shift(now, offset))
  }

  /** The subscription after the write: plan, status, trial flag, start date
      (the server's timestamp `serverNow`) and end date are overwritten; a
      missing subscription map is created with just these. */
  function Renewed(sub: Option<Subscription>, plan: string, now: Instant, serverNow: Instant,
                   shift: (Instant, Offset) -> Instant): Subscription
  {
    var base := if sub.Some? then sub.value else EmptySubscription;
    base.(plan := Some(plan), status := Some("active"), isTrial := Some(IsTrial(plan)),
          startDate := Some(serverNow), endDate := EndDate(plan, now, shift))
  }

  /** Exactly the five fields are written, the credit count is kept, and the
      trial flag agrees with the seven-day end date. */
  lemma RenewedFields(sub: Option<Subscription>, plan: string, now: Instant, serverNow: Instant,
                      shift: (Instant, Offset) -> Instant)
    ensures var r := Renewed(sub, plan, now, serverNow, shift);
      && r.plan == Some(plan) && r.status == Some("active") && r.startDate == Some(serverNow)
      && r.credits == (if sub.Some? then sub.value.credits else None)
      && (r.isTrial == Some(true) <==> EndOffset(plan) == Some(Days(7)))
      && (r.endDate.None? <==> EndOffset(plan).None?)
      && (EndOffset(plan).Some? ==> r.endDate == Some(shift(now, EndOffset(plan).value)))
  {
  }

  /** The collection after a successful write. */
  function Updated(users: map<string, UserRecord>, userId: string, plan: string, now: Instant,
                   serverNow: Instant, shift: (Instant, Offset) -> Instant): map<string, UserRecord>
    requires userId in users
  {
    var rec := users[userId];
    users[userId := rec.(subscription := Some(Renewed(rec.subscription, plan, now, serverNow, shift)))]
  }

  /** `updateSubscription`. Whether the store accepts the write is the
      parameter `writeSucceeds`; a write to a user without a document fails
      as well. */
  method Update(store: UserStore, userId: string, newPlan: string, now: Instant, serverNow: Instant,
                shift: (Instant, Offset) -> Instant, writeSucceeds: bool) returns (r: Result<(), UpdateError>)
    modifies store
    ensures InputIssues(userId, newPlan) != [] ==>
      r == Err(InvalidInput(InputIssues(userId, newPlan))) && store.users == old(store.users)
    ensures InputIssues(userId, newPlan) == [] && (userId !in old(store.users) || !writeSucceeds) ==>
      r == Err(WriteFailed) && store.users == old(store.users)
    ensures InputIssues(userId, newPlan) == [] && userId in old(store.users) && writeSucceeds ==>
      r == Ok(()) && store.users == Updated(old(store.users), userId, newPlan, now, serverNow, shift)
  {
    var issues := InputIssues(userId, newPlan);
    if issues != [] {
      return Err(InvalidInput(issues));
    }
    if userId !in store.users || !writeSucceeds {
      return Err(WriteFailed);
    }
    var record := store.users[userId];
    var subscription := Renewed(record.subscription, newPlan, now, serverNow, shift);
    store.users := store.users[userId := record.(subscription := Some(subscription))];
    return Ok(());
  }

  // ----- Together with the access check -----

  /** What the access check decides right after a successful update, at any
      later instant: a time-limited plan lets the user through for free until
      its end date and refuses them afterwards, a plan with no end date never
      expires, and Pay-As-You-Go spends the credits the user already had. */
  lemma AccessAfterUpdate(users: map<string, UserRecord>, userId: string, plan: string, now: Instant,
                          serverNow: Instant, shift: (Instant, Offset) -> Instant, later: Instant)
    requires userId != [] && userId in users
    ensures var after := Updated(users, userId, plan, now, serverNow, shift);
      var decision := UserCredits.Decide(after, userId, later);
      var before := users[userId].subscription;
      var credits := if before.Some? then UserCredits.Credits(before.value) else 0;
      && UserCredits.Credits(after[userId].subscription.value) == credits
      && (plan != UserCredits.PayAsYouGo && EndOffset(plan).None? ==> decision == UserCredits.Grant)
      && (plan != UserCredits.PayAsYouGo && EndOffset(plan).Some? ==>
            (decision == UserCredits.Grant <==> later <= shift(now, EndOffset(plan).value)))
      && (plan == UserCredits.PayAsYouGo ==> (decision == UserCredits.Charge <==> credits >= 1))
  {
    var before := users[userId].subscription;
    var sub := Renewed(before, plan, now, serverNow, shift);
    RenewedFields(before, plan, now, serverNow, shift);
    var after := Updated(users, userId, plan, now, serverNow, shift);
    assert after[userId] == users[userId].(subscription := Some(sub));
    assert UserCredits.IsActive(sub);
  }
}
