/** The records of the ski-resort domain as the skier service sees them.
    Identifiers are the keys of the store's maps, so a record does not repeat
    its own id; a reference to another record is that record's id. */
module Entities {
  import opened Wrappers
  import opened Calendar

  type SkierId = int
  type SubscriptionId = int
  type PisteId = int
  type CourseId = int
  type RegistrationId = int

  datatype TypeSubscription = ANNUAL | SEMESTRIEL | MONTHLY

  /** A subscription: its end date is nullable and is filled in by `addSkier`.
      The price is not modelled. */
  datatype Subscription = Subscription(startDate: LocalDate, endDate: Option<LocalDate>, typeSub: TypeSubscription)

  /** A skier as Java code holds it, its subscription held as an `S`: the
      subscription itself in a skier handed in by a caller (saved along with
      the skier, as its persist cascade says), the id of a stored subscription
      in a stored skier read back. The pistes form a set: adding one twice has
      no further effect. */
  datatype Skier<S> = Skier(
    firstName: string,
    lastName: string,
    dateOfBirth: LocalDate,
    city: string,
    subscription: Option<S>,
    pistes: set<PisteId>,
    registrations: set<RegistrationId>)

  /** A skier as a caller hands it in, subscription included. */
  type NewSkier = Skier<Subscription>

  /** A stored skier as a lookup returns it. */
  type LoadedSkier = Skier<SubscriptionId>

  /** What the store keeps for a skier: its own columns, the reference to its
      subscription and its side of the skier-piste join table. Its
      registrations are not kept here: that collection is the inverse side of
      each registration's skier reference, and reading a skier back derives it
      from the registrations. */
  datatype SkierRow = SkierRow(
    firstName: string,
    lastName: string,
    dateOfBirth: LocalDate,
    city: string,
    subscription: Option<SubscriptionId>,
    pistes: set<PisteId>)

  /** The service tests that a piste exists and takes a course by reference;
      it reads no other column of either. */
  datatype Piste = Piste
  datatype Course = Course

  /** The join record between a skier and a course; `None` where the JPA
      reference is still null. */
  datatype Registration = Registration(skier: Option<SkierId>, course: Option<CourseId>)

  /** A stored row and a skier agree on the skier's own columns: names, date
      of birth, city. */
  predicate SameProfile<S>(row: SkierRow, skier: Skier<S>)
  {
    row.firstName == skier.firstName && row.lastName == skier.lastName
    && row.dateOfBirth == skier.dateOfBirth && row.city == skier.city
  }
}
