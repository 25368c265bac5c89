/** The `users` collection the subscription actions read and write: one
    document per user id, holding a `subscription` map beside the rest of the
    profile. */
module Accounts {
  import opened Wrappers

  /** A point in time, in milliseconds since the epoch. */
  type Instant = int

  /** The fields of the `subscription` map; any of them may be missing (a
      stored `null` reads as missing too). */
  datatype Subscription = Subscription(
    plan: Option<string>,
    status: Option<string>,
    isTrial: Option<bool>,
    startDate: Option<Instant>,
    endDate: Option<Instant>,
    credits: Option<int>)

  /** A document with a subscription map in which no field is set yet. */
  const EmptySubscription: Subscription := Subscription(None, None, None, None, None, None)

  /** A user document: the subscription map, if any, and every other field,
      which the actions never look at. */
  datatype UserRecord = UserRecord(subscription: Option<Subscription>, profile: map<string, string>)

  /** The collection itself, updated in place by the actions. */
  class UserStore {
    var users: map<string, UserRecord>

    constructor (users: map<string, UserRecord>)
      ensures this.users == users
    {
      this.users := users;
    }
  }
}
