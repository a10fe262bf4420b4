# Skier service of a ski-resort backend, in Dafny

This project models the skier domain service of a small ski-resort
management backend (`SkierServicesImpl`) and proves properties of the model.
The service keeps skiers, subscriptions, pistes, courses and registrations.
It derives a subscription's end date from its type when a skier is created by `addSkier`. It
links a skier to a subscription or a piste only when both exist, back-fills a
new skier's registrations with the skier and a course, and deletes a skier
together with the subscription it owns.

Files:

- `wrappers.dfy`: `Option`, standing for a nullable reference or an `Optional`.
- `calendar.dfy` (module `Calendar`): dates of the ISO-8601 proleptic
  Gregorian calendar with the `plusMonths`/`plusYears` arithmetic of
  `java.time.LocalDate`. The day is clamped to the target month's length. A
  result whose year leaves `LocalDate`'s range (±999 999 999) is `None`, where
  Java throws `DateTimeException`. The subset type `LocalDate` holds only valid
  dates, as the Java class does.
- `entities.dfy` (module `Entities`): the records. A skier handed in by a
  caller (`NewSkier`) carries the subscription itself, which is saved with it
  (the persist cascade, `Skier.java:27`). The store keeps a `SkierRow` per
  skier: its own columns, its subscription's id and its pistes. A skier's
  registration set is the inverse side of each registration's skier
  reference (`Skier.java:38-39`), so it is not stored with the skier:
  `RetrieveSkier` derives it from the registrations.
- `collections.dfy` (module `Collections`): a set fact the loops use.
- `skier_services.dfy` (module `SkierServices`): the end-date switch as the
  function `EndDate`, and the class `SkierService`, whose five map fields stand
  for the five repositories. Each service method is one atomic step. A method
  that Java leaves by an exception changes nothing, as the rolled-back
  transaction does.

Modelling choices where the code leaves the behaviour open:

- An unknown subscription type cannot occur: the switch covers the three enum
  constants and a null type is excluded by the field's type.
- `addSkierAndAssignToCourse` does not check that the course exists:
  `getById` yields a reference to the id either way. The model records the
  course id in every registration whether or not that course is stored. No
  error path is added.
- `removeSkier` of an absent id changes nothing (`deleteById` of Spring Data 3).
- New identities come from `NextIdentity`: the least id ≥ 1 above every id in
  use. A new skier's id is also above every skier id a registration still
  references, so a new skier never inherits a deleted skier's registrations.
  A new subscription's id is also above every subscription id a skier still
  references, so no other skier comes to hold the new skier's subscription.
- Only `addSkier` derives the end date. `addSkierAndAssignToCourse` saves the
  subscription exactly as given, so a stored end date need not equal the start
  date plus the offset of the type.
- `AddSkier` and `AddSkierAndAssignToCourse` return the new skier's id, where
  Java returns the saved entity. For `addSkier` that object still carries the
  registration set the caller attached, while `RetrieveSkier` of the new id
  reads back no registrations, because none references the new skier.

## Model

| member | source | states |
|---|---|---|
| `Calendar.PlusMonths` | src/main/java/tn/esprit/spring/services/SkierServicesImpl.java:37-40 | the result is a valid date whose proleptic month is the start's plus `months`, with the day clamped to the target month; it is absent exactly when the target year is out of range |
| `Calendar.PlusYears` | src/main/java/tn/esprit/spring/services/SkierServicesImpl.java:34 | the result keeps the month, moves the year by `years` and clamps the day (29 February to 28 February); it is absent exactly when the target year is out of range |
| `Calendar.PlusMonthsIsLater` | src/main/java/tn/esprit/spring/services/SkierServicesImpl.java:37-40 | adding one month or more gives a strictly later date |
| `Calendar.PlusYearsIsLater` | src/main/java/tn/esprit/spring/services/SkierServicesImpl.java:34 | adding one year or more gives a strictly later date |
| `Calendar.TwelveMonthsIsOneYear` | src/main/java/tn/esprit/spring/services/SkierServicesImpl.java:34-40 | twelve months and one year give the same result on every date, failures included |
| `Calendar.ClampingExamples` | src/main/java/tn/esprit/spring/services/SkierServicesImpl.java:34-40 | 2024-01-31 + 1 month = 2024-02-29, 2023-01-31 + 1 month = 2023-02-28, 2024-08-31 + 6 months = 2025-02-28, 2024-12-15 + 1 month = 2025-01-15, 2024-02-29 + 1 year = 2025-02-28, and one year after the last supported year fails |
| `SkierServices.EndDate` | src/main/java/tn/esprit/spring/services/SkierServicesImpl.java:32-42 | the derived end date is strictly after the start: ANNUAL is one year on with the same month, SEMESTRIEL six months on, MONTHLY one month on, with the day clamped; derivation fails exactly in the last supported year when the offset leaves it |
| `SkierServices.EndDateExamples` | src/main/java/tn/esprit/spring/services/SkierServicesImpl.java:32-42 | a MONTHLY subscription from 2024-01-15 ends 2024-02-15, an ANNUAL one ends 2025-01-15, a SEMESTRIEL one ends 2024-07-15, and a MONTHLY one from 2024-01-31 ends 2024-02-29 |
| `SkierServices.WithDerivedEndDate` | src/main/java/tn/esprit/spring/services/SkierServicesImpl.java:31-43 | with no subscription the skier is passed on exactly as given; otherwise only the subscription's end date changes, to the derived one, and start date, type and every skier field are kept; it fails exactly when the derivation fails |
| `SkierServices.NextIdentity` | src/main/java/tn/esprit/spring/entities/Skier.java:18-20 | a generated identity is positive and greater than every id in use, so no record holds it yet |
| `SkierServices.SkierService.constructor` | src/main/java/tn/esprit/spring/services/SkierServicesImpl.java:13-21 | the service starts over the given repository contents |
| `SkierServices.SkierService.SaveSkier` | src/main/java/tn/esprit/spring/services/SkierServicesImpl.java:44 | the skier's columns and pistes are stored under a fresh id; its subscription, if any, is stored under a fresh id of its own, which no other skier references, and referenced by the skier; no registration references the new skier, since the registration set is the inverse side and is not saved; nothing else changes |
| `SkierServices.SkierService.AddSkier` | src/main/java/tn/esprit/spring/services/SkierServicesImpl.java:28-45 | the saved skier is the given one with the derived end date; its stored subscription keeps start date and type and gets `EndDate(type, start)`; the new skier is then found by the query for its type and reads back with no registrations; when the derivation throws, nothing is stored |
| `SkierServices.SkierService.AssignSkierToSubscription` | src/main/java/tn/esprit/spring/services/SkierServicesImpl.java:47-57 | null and no change exactly when the skier or the subscription is missing; otherwise only that skier's subscription reference changes, to that subscription, and the skier is returned as a lookup now reads it |
| `SkierServices.SkierService.AddSkierAndAssignToCourse` | src/main/java/tn/esprit/spring/services/SkierServicesImpl.java:59-71 | the skier is saved as by `save`, its subscription exactly as given, with no end date derived; afterwards every registration in its set references the saved skier and course `numCourse`; registrations outside the set keep their values, no registration disappears, and the saved skier reads back with exactly the given registrations |
| `SkierServices.SkierService.RemoveSkier` | src/main/java/tn/esprit/spring/services/SkierServicesImpl.java:73-77 | the skier is gone and so is the subscription it owned (the remove cascade of `Skier.java:27`); no other skier or subscription changes; retrieving that id afterwards yields nothing |
| `SkierServices.SkierService.RetrieveSkier` | src/main/java/tn/esprit/spring/services/SkierServicesImpl.java:79-82 | null exactly when the id is absent; otherwise the stored columns, subscription reference and pistes, with the registrations being exactly those whose skier reference is this id |
| `SkierServices.SkierService.AssignSkierToPiste` | src/main/java/tn/esprit/spring/services/SkierServicesImpl.java:84-94 | null and no change exactly when the skier or the piste is missing; otherwise the skier's piste set gains only that piste, nothing else changes, and the skier is returned as a lookup now reads it; assigning a piste the skier already has changes nothing (a second identical call is a no-op) |
| `SkierServices.SkierService.RetrieveSkiersBySubscriptionType` | src/main/java/tn/esprit/spring/services/SkierServicesImpl.java:96-99 | exactly the stored skiers whose stored subscription has the queried type, each as `RetrieveSkier` returns it |
| `SkierServices.SkierService.SubscriptionTypesPartition` | src/main/java/tn/esprit/spring/services/SkierServicesImpl.java:96-99 | a skier found by the query for one type holds a stored subscription and is found by no query for another type |

`EndDate` is a function, so computing the end date twice from the same type
and start date gives the same result; no lemma is needed for that.

## Left out

- Spring and JPA plumbing: the service and transaction annotations, the repository interfaces and their implementations. Plain maps replace the repositories, and each method is atomic.
- `retrieveAllSkiers` (`SkierServicesImpl.java:23-26`): a plain `findAll`; the `skiers` field is its answer.
- The derived query `findBySubscription_TypeSub` has no code; `RetrieveSkiersBySubscriptionType` specifies it as a filter over the map. It returns a map rather than a list, so list order is not modelled.
- Identities are unbounded integers; the 64-bit width of Java's `Long` is not modelled. `NextIdentity` returns the least id ≥ 1 above every id in use (and, for skiers and subscriptions, above every id still referenced), so a database counter that skips ids after deletions is not modelled.
- `Calendar.PlusMonths`: the month count is an unbounded integer; a `long` argument near its own overflow is not modelled. The service only adds 1 and 6 months.
- `price` of a subscription (a `Float`), JSON annotations and the join-table naming.
- `SaveSkier`: saving a skier that already has an id (`numSkier` set), which `save` merges into that row instead of inserting a new one, is not modelled; `NewSkier` has no id, so a skier handed in is always inserted under a fresh id.
- Saving a skier whose subscription is already persisted (a merge of a detached entity) is not modelled either. The subscription handed to `addSkier` or `addSkierAndAssignToCourse` is always a new one, and a registration is known by its id: `AddSkierAndAssignToCourse` stores a registration that is not yet stored under the id it carries, where `registrationRepository.save` of a new registration would generate its id.
- Piste, Course and Registration columns other than the two references are not part of this model; those entity files are not part of it either. The service tests that a piste exists and takes a course by reference; it reads no other column of either.
- Database constraints that would make a commit fail are not modelled. These are the uniqueness constraint of the one-to-one subscription column and the foreign keys from registrations to a deleted skier, from a registration to its course, and from the skier-piste join table `excursion` (`Skier.java:31-36`, no cascade) to its piste. With the course key, Java fails at commit when `numCourse` is unknown and the registration set is not empty; the model stores the unknown course id. With the piste key, Java fails when a saved skier holds a piste that is not stored (at flush for a transient piste, at commit for an unknown id); the model stores the unknown piste id in the skier's piste set. Without the uniqueness constraint, one subscription can be shared between two skiers, and `RemoveSkier` then removes it for both.
- Null paths are excluded by the types: a null subscription type, start date or registration set, a null first name, last name, city or date of birth (the service only copies these columns), a null skier handed in, and a null skier, subscription, piste or course id, on which `findById`, `deleteById` or `getById` throw. A null subscription is modelled (`Option`).
- The Mockito test of the course service is not part of this model; it exercises a different service.
