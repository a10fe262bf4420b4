/** The skier domain service over an in-memory store: one map from id to
    record per repository. Each service method runs as one atomic step; a
    method that Java leaves by an exception changes nothing, as the rolled-back
    transaction does. */
module SkierServices {
  import opened Wrappers
  import opened Calendar
  import opened Entities
  import opened Collections

  /** The end date the switch of `addSkier` derives from a subscription's type
      and start date; `None` where `plusYears`/`plusMonths` throw. The derived
      end date is a later date: one year on with the same month for ANNUAL,
      six and one months on for SEMESTRIEL and MONTHLY, with the day clamped
      to the target month. Derivation fails only from the last supported
      year, and then exactly when the offset leaves it. */
  function EndDate(t: TypeSubscription, start: LocalDate): (r: Option<LocalDate>)
    ensures r.None? <==>
      start.year == MAX_YEAR
      && (t == ANNUAL || (t == SEMESTRIEL && start.month > 6) || (t == MONTHLY && start.month == 12))
    ensures r.Some? ==>
      && Before(start, r.value)
      && r.value.day == Min(start.day, LengthOfMonth(r.value.year, r.value.month))
      && (t == ANNUAL ==> r.value.year == start.year + 1 && r.value.month == start.month)
      && (t == SEMESTRIEL ==> ProlepticMonth(r.value) == ProlepticMonth(start) + 6)
      && (t == MONTHLY ==> ProlepticMonth(r.value) == ProlepticMonth(start) + 1)
  {
    match t
    case ANNUAL => PlusYears(start, 1)
    case SEMESTRIEL => PlusMonths(start, 6)
    case MONTHLY => PlusMonths(start, 1)
  }

  /** End dates derived from 15 January 2024 for each type, and the
      31 January clamp. */
  lemma EndDateExamples()
    ensures EndDate(MONTHLY, Date(2024, 1, 15)) == Some(Date(2024, 2, 15))
    ensures EndDate(ANNUAL, Date(2024, 1, 15)) == Some(Date(2025, 1, 15))
    ensures EndDate(SEMESTRIEL, Date(2024, 1, 15)) == Some(Date(2024, 7, 15))
    ensures EndDate(MONTHLY, Date(2024, 1, 31)) == Some(Date(2024, 2, 29))
  {
  }

  /** The skier `addSkier` hands to `save`: with no subscription, the skier as
      given; otherwise the same skier whose subscription differs only in the
      derived end date. `None` when the derivation throws. */
  function WithDerivedEndDate(skier: NewSkier): (r: Option<NewSkier>)
    ensures skier.subscription.None? ==> r == Some(skier)
    ensures skier.subscription.Some? ==>
      var s := skier.subscription.value;
      && (r.None? <==> EndDate(s.typeSub, s.startDate).None?)
      && (r.Some? ==>
            && r.value.(subscription := skier.subscription) == skier
            && r.value.subscription.Some?
            && r.value.subscription.value.startDate == s.startDate
            && r.value.subscription.value.typeSub == s.typeSub
            && r.value.subscription.value.endDate == EndDate(s.typeSub, s.startDate))
  {
    match skier.subscription
    case None => Some(skier)
    case Some(s) =>
      var end := EndDate(s.typeSub, s.startDate);
      if end.None? then None
      else Some(skier.(subscription := Some(s.(endDate := end))))
  }

  /** A generated identity: an id above every id in use, so one no record
      holds yet. */
  method NextIdentity(ids: set<int>) returns (id: int)
    ensures id >= 1 && id !in ids
    ensures forall k :: k in ids ==> k < id
  {
    id := 1;
    var rest := ids;
    ghost var seen: set<int> := {};
    while rest != {}
      invariant seen + rest == ids
      invariant id >= 1
      invariant forall k :: k in seen ==> k < id
      decreases rest
    {
      NonEmptyHasElement(rest);
      var k :| k in rest;
      if id <= k {
        id := k + 1;
      }
      rest := rest - {k};
      seen := seen + {k};
    }
  }

  class SkierService {
    var skiers: map<SkierId, SkierRow>
    var subscriptions: map<SubscriptionId, Subscription>
    var pistes: map<PisteId, Piste>
    var courses: map<CourseId, Course>
    var registrations: map<RegistrationId, Registration>

    /** A service over a store with the given contents. */
    constructor (
      skiers: map<SkierId, SkierRow>,
      subscriptions: map<SubscriptionId, Subscription>,
      pistes: map<PisteId, Piste>,
      courses: map<CourseId, Course>,
      registrations: map<RegistrationId, Registration>)
      ensures this.skiers == skiers && this.subscriptions == subscriptions
      ensures this.pistes == pistes && this.courses == courses
      ensures this.registrations == registrations
    {
      this.skiers := skiers;
      this.subscriptions := subscriptions;
      this.pistes := pistes;
      this.courses := courses;
      this.registrations := registrations;
    }

    /** The registrations whose skier reference is `id`: the skier's
        registration set as JPA reads it back (`mappedBy = "skier"`). */
    function RegistrationsOf(id: SkierId): set<RegistrationId>
      reads this
    {
      set k | k in registrations && registrations[k].skier == Some(id)
    }

    /** Every skier id some registration references, including ids of skiers
        deleted since; a generated identity is never one of them. */
    function ReferencedSkiers(): set<SkierId>
      reads this
    {
      set k | k in registrations && registrations[k].skier.Some? :: registrations[k].skier.value
    }

    /** Every subscription id some skier references, including ids of
        subscriptions deleted since while another skier still holds them; a
        generated identity is never one of them. */
    function ReferencedSubscriptions(): set<SubscriptionId>
      reads this
    {
      set k | k in skiers && skiers[k].subscription.Some? :: skiers[k].subscription.value
    }

    /** The store holds `skier`'s columns under the fresh id `id` in addition
        to what `skiers0` held, and its subscription, if any, under a fresh id
        of its own in addition to `subscriptions0`, one that no skier of
        `skiers0` references. */
    ghost predicate SavedAs(
      skiers0: map<SkierId, SkierRow>,
      subscriptions0: map<SubscriptionId, Subscription>,
      skier: NewSkier,
      id: SkierId)
      reads this
    {
      && id !in skiers0 && id in skiers
      && skiers == skiers0[id := skiers[id]]
      && SameProfile(skiers[id], skier)
      && skiers[id].pistes == skier.pistes
      && match skier.subscription
         case None => skiers[id].subscription.None? && subscriptions == subscriptions0
         case Some(s) =>
           && skiers[id].subscription.Some?
           && skiers[id].subscription.value !in subscriptions0
           && (forall k :: k in skiers0 ==> skiers0[k].subscription != skiers[id].subscription)
           && subscriptions == subscriptions0[skiers[id].subscription.value := s]
    }

    /** `skierRepository.save` of a new skier: the subscription it carries is
        persisted with it, each under a generated identity. The skier's
        registration set is the inverse side of the relation and is not
        persisted, so no registration references the new skier. */
    method SaveSkier(skier: NewSkier) returns (id: SkierId)
      modifies this`skiers, this`subscriptions
      ensures SavedAs(old(skiers), old(subscriptions), skier, id)
      ensures id !in ReferencedSkiers()
      ensures forall k :: k in registrations ==> registrations[k].skier != Some(id)
      ensures RegistrationsOf(id) == {}
    {
      var subscriptionId: Option<SubscriptionId> := None;
      if skier.subscription.Some? {
        var sid := NextIdentity(subscriptions.Keys + ReferencedSubscriptions());
        subscriptions := subscriptions[sid := skier.subscription.value];
        subscriptionId := Some(sid);
      }
      id := NextIdentity(skiers.Keys + ReferencedSkiers());
      skiers := skiers[id := SkierRow(skier.firstName, skier.lastName, skier.dateOfBirth, skier.city,
                                      subscriptionId, skier.pistes)];
      forall k | k in registrations
        ensures registrations[k].skier != Some(id)
      {
        if registrations[k].skier.Some? {
          assert registrations[k].skier.value in ReferencedSkiers();
        }
      }
      assert RegistrationsOf(id) == {};
    }

    /** `addSkier`: derives the subscription's end date from its type, then
        saves the skier. When the derivation throws nothing is saved. The
        registrations the caller attached are not saved with the skier. */
    method AddSkier(skier: NewSkier) returns (saved: Option<SkierId>)
      modifies this`skiers, this`subscriptions
      ensures saved.None? <==> WithDerivedEndDate(skier).None?
      ensures saved.None? ==> skiers == old(skiers) && subscriptions == old(subscriptions)
      ensures saved.Some? ==> SavedAs(old(skiers), old(subscriptions), WithDerivedEndDate(skier).value, saved.value)
      ensures saved.Some? && skier.subscription.Some? ==>
        var s := skier.subscription.value;
        && skiers[saved.value].subscription.Some?
        && skiers[saved.value].subscription.value in subscriptions
        && subscriptions[skiers[saved.value].subscription.value] == s.(endDate := EndDate(s.typeSub, s.startDate))
      ensures saved.Some? && skier.subscription.Some? ==>
        saved.value in RetrieveSkiersBySubscriptionType(skier.subscription.value.typeSub)
      ensures saved.Some? ==> RetrieveSkier(saved.value).Some?
      ensures saved.Some? ==> RetrieveSkier(saved.value).value.registrations == {}
    {
      var prepared := WithDerivedEndDate(skier);
      if prepared.None? {
        return None;
      }
      var id := SaveSkier(prepared.value);
      saved := Some(id);
    }

    /** `assignSkierToSubscription`: when both the skier and the subscription
        exist, the skier now holds that subscription and nothing else about it
        changes, and the skier is returned as read back; when either is missing
        the result is null and the store is untouched. */
    method AssignSkierToSubscription(numSkier: SkierId, numSubscription: SubscriptionId)
      returns (r: Option<LoadedSkier>)
      modifies this`skiers
      ensures r.Some? <==> numSkier in old(skiers) && numSubscription in subscriptions
      ensures r.None? ==> skiers == old(skiers)
      ensures r.Some? ==>
        && skiers == old(skiers)[numSkier := old(skiers)[numSkier].(subscription := Some(numSubscription))]
        && r == RetrieveSkier(numSkier)
        && r.value.subscription == Some(numSubscription)
    {
      if numSkier in skiers && numSubscription in subscriptions {
        skiers := skiers[numSkier := skiers[numSkier].(subscription := Some(numSubscription))];
        r := RetrieveSkier(numSkier);
      } else {
        r := None;
      }
    }

    /** `addSkierAndAssignToCourse`: saves the skier as given, with no end date
        derived for its subscription, then points every one of its
        registrations at the saved skier and at course `numCourse`. The course
        is taken by reference (`getById`), so the reference is recorded whether
        or not that course exists. Registrations outside the skier's set are
        untouched, and the saved skier reads back with exactly the given
        registrations. */
    method AddSkierAndAssignToCourse(skier: NewSkier, numCourse: CourseId) returns (id: SkierId)
      modifies this`skiers, this`subscriptions, this`registrations
      ensures SavedAs(old(skiers), old(subscriptions), skier, id)
      ensures skier.subscription.Some? ==>
        && skiers[id].subscription.Some?
        && subscriptions[skiers[id].subscription.value] == skier.subscription.value
      ensures registrations.Keys == old(registrations).Keys + skier.registrations
      ensures forall k :: k in skier.registrations ==>
        registrations[k] == Registration(Some(id), Some(numCourse))
      ensures forall k :: k in old(registrations) && k !in skier.registrations ==>
        registrations[k] == old(registrations)[k]
      ensures RetrieveSkier(id).Some? && RetrieveSkier(id).value.registrations == skier.registrations
    {
      id := SaveSkier(skier);
      ghost var skiers1, subscriptions1 := skiers, subscriptions;
      var link := Registration(Some(id), Some(numCourse));
      var todo := skier.registrations;
      ghost var linked: set<RegistrationId> := {};
      while todo != {}
        invariant linked + todo == skier.registrations
        invariant skiers == skiers1 && subscriptions == subscriptions1
        invariant registrations.Keys == old(registrations).Keys + linked
        invariant forall k :: k in linked ==> registrations[k] == link
        invariant forall k :: k in old(registrations) && k !in linked ==>
          registrations[k] == old(registrations)[k]
        decreases todo
      {
        NonEmptyHasElement(todo);
        var k :| k in todo;
        registrations := registrations[k := link];
        todo := todo - {k};
        linked := linked + {k};
      }
      // A registration outside the set keeps its old skier reference, and
      // that is not `id`, since `id !in ReferencedSkiers()` before the loop.
      forall k | k in registrations && k !in skier.registrations
        ensures registrations[k].skier != Some(id)
      {
        assert registrations[k] == old(registrations)[k];
      }
      forall k | k in skier.registrations
        ensures k in RegistrationsOf(id)
      {
        assert registrations[k] == link;
      }
      assert RegistrationsOf(id) == skier.registrations;
    }

    /** `removeSkier`: deletes the skier and, by the remove cascade on its
        subscription, the subscription it owns. An absent id changes nothing. */
    method RemoveSkier(numSkier: SkierId)
      modifies this`skiers, this`subscriptions
      ensures skiers == old(skiers) - {numSkier}
      ensures numSkier in old(skiers) && old(skiers)[numSkier].subscription.Some? ==>
        subscriptions == old(subscriptions) - {old(skiers)[numSkier].subscription.value}
      ensures !(numSkier in old(skiers) && old(skiers)[numSkier].subscription.Some?) ==>
        subscriptions == old(subscriptions)
      ensures RetrieveSkier(numSkier) == None
    {
      if numSkier in skiers {
        var owned := skiers[numSkier].subscription;
        skiers := skiers - {numSkier};
        if owned.Some? {
          subscriptions := subscriptions - {owned.value};
        }
      }
    }

    /** `retrieveSkier`: the stored skier, or null when there is none. Its
        registrations are read back as the registrations that reference it. */
    function RetrieveSkier(numSkier: SkierId): (r: Option<LoadedSkier>)
      reads this
      ensures r.Some? <==> numSkier in skiers
      ensures r.Some? ==>
        && SameProfile(skiers[numSkier], r.value)
        && r.value.subscription == skiers[numSkier].subscription
        && r.value.pistes == skiers[numSkier].pistes
        && (forall k :: k in r.value.registrations <==>
              k in registrations && registrations[k].skier == Some(numSkier))
    {
      if numSkier in skiers then
        var row := skiers[numSkier];
        Some(Skier(row.firstName, row.lastName, row.dateOfBirth, row.city,
                   row.subscription, row.pistes, RegistrationsOf(numSkier)))
      else None
    }

    /** `assignSkierToPiste`: when both the skier and the piste exist, the piste
        joins the skier's piste set and nothing else about the skier changes,
        and the skier is returned as read back; when either is missing the
        result is null and the store is untouched. Assigning a piste the skier
        already has changes nothing, so a second identical call leaves the
        store as the first one did. */
    method AssignSkierToPiste(numSkier: SkierId, numPiste: PisteId) returns (r: Option<LoadedSkier>)
      modifies this`skiers
      ensures r.Some? <==> numSkier in old(skiers) && numPiste in pistes
      ensures r.None? ==> skiers == old(skiers)
      ensures r.Some? ==>
        && skiers == old(skiers)[numSkier := old(skiers)[numSkier].(pistes := old(skiers)[numSkier].pistes + {numPiste})]
        && r == RetrieveSkier(numSkier)
        && numPiste in r.value.pistes
      ensures r.Some? && numPiste in old(skiers)[numSkier].pistes ==> skiers == old(skiers)
    {
      if numSkier in skiers && numPiste in pistes {
        var row := skiers[numSkier].(pistes := skiers[numSkier].pistes + {numPiste});
        assert numPiste in skiers[numSkier].pistes ==> row == skiers[numSkier];
        skiers := skiers[numSkier := row];
        r := RetrieveSkier(numSkier);
      } else {
        r := None;
      }
    }

    /** A stored skier holds a stored subscription of type `t`. */
    predicate HasSubscriptionType(row: SkierRow, t: TypeSubscription)
      reads this
    {
      row.subscription.Some? && row.subscription.value in subscriptions
      && subscriptions[row.subscription.value].typeSub == t
    }

    /** `retrieveSkiersBySubscriptionType`: the stored skiers whose subscription
        has type `t`, and no others, each as a lookup returns it. */
    function RetrieveSkiersBySubscriptionType(t: TypeSubscription): (r: map<SkierId, LoadedSkier>)
      reads this
      ensures forall id :: id in r <==> id in skiers && HasSubscriptionType(skiers[id], t)
      ensures forall id :: id in r ==> RetrieveSkier(id) == Some(r[id])
    {
      map id | id in skiers && HasSubscriptionType(skiers[id], t) :: RetrieveSkier(id).value
    }

    /** The queries for the three types split the skiers that hold a stored
        subscription: each such skier is answered by exactly one type. */
    lemma SubscriptionTypesPartition(id: SkierId, t: TypeSubscription, u: TypeSubscription)
      requires id in RetrieveSkiersBySubscriptionType(t)
      ensures id in RetrieveSkiersBySubscriptionType(u) <==> u == t
      ensures skiers[id].subscription.Some? && skiers[id].subscription.value in subscriptions
    {
    }
  }
}
