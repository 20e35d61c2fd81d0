/** The milestone test and the events of the GET /milestones handler (index.js:57-86). */
module Milestones {
  import opened Wrappers
  import opened Profiles
  import opened Tables

  /** Milestones fire at exact multiples of this step. */
  const Step: nat := 25

  /** The fixed label of every milestone event. */
  const Label: string := "Total BJJ Classes"

  /** One element of the returned `milestones` array. */
  datatype Event = Event(name: Option<string>, kind: string, count: nat)

  /** Classes attended in total; an absent counter is 0. */
  function Total(p: Profile): nat {
    p.giCount.GetOr(0) + p.nogiCount.GetOr(0)
  }

  /** The highest total already announced; absent is 0. */
  function Acknowledged(p: Profile): nat {
    p.totalMilestone.GetOr(0)
  }

  /** A user fires when their total is above the acknowledged one and a multiple of the step. */
  predicate Fires(p: Profile) {
    Total(p) > Acknowledged(p) && Total(p) % Step == 0
  }

  /** The event announced for a user that fires; the name falls back to the email. */
  function EventFor(p: Profile): (e: Event)
    ensures e.kind == Label && e.count == Total(p)
    ensures p.displayName.Some? ==> e.name == p.displayName
    ensures p.displayName.None? ==> e.name == p.email
  {
    Event(if p.displayName.Some? then p.displayName else p.email, Label, Total(p))
  }

  /** The user document after the scan looked at it: a firing user gets `totalMilestone := total`. */
  function AfterCheck(p: Profile): Profile {
    if Fires(p) then Merge(p, Fields(None, None, Some(Total(p)))) else p
  }

  /** A firing user fires with a positive multiple of the step; a total of 0 never fires. */
  lemma FiresOnlyOnPositiveMultiples(p: Profile)
    ensures Fires(p) ==> Total(p) > 0 && Total(p) % Step == 0
    ensures Total(p) == 0 ==> !Fires(p)
  {
  }

  /** Looking at a user keeps every counter and raises the acknowledged total to the total
      exactly when the user fires; it never lowers it. */
  lemma AfterCheckEffect(p: Profile)
    ensures Fires(p) ==> AfterCheck(p) == p.(totalMilestone := Some(Total(p)))
    ensures !Fires(p) ==> AfterCheck(p) == p
    ensures Total(AfterCheck(p)) == Total(p)
    ensures Acknowledged(AfterCheck(p)) >= Acknowledged(p)
  {
  }

  /** A user just looked at does not fire again. */
  lemma AfterCheckQuiet(p: Profile)
    ensures !Fires(AfterCheck(p))
  {
  }

  /** The events of a scan over `order`, in that order. */
  function ScanEvents(order: seq<Uid>, users: map<Uid, Profile>): seq<Event> {
    if order == [] then []
    else
      (if order[0] in users && Fires(users[order[0]]) then [EventFor(users[order[0]])] else [])
      + ScanEvents(order[1..], users)
  }

  /** The user table after a scan: every user is looked at once. */
  function AfterScan(users: map<Uid, Profile>): (r: map<Uid, Profile>)
    ensures r.Keys == users.Keys
  {
    map u | u in users :: AfterCheck(users[u])
  }

  /** `now` is `before` with the first `i` users of `order` looked at and the rest untouched. */
  ghost predicate ScannedPrefix(now: map<Uid, Profile>, before: map<Uid, Profile>, order: seq<Uid>, i: nat) {
    && i <= |order|
    && now.Keys == before.Keys
    && (forall j :: 0 <= j < |order| ==> order[j] in before)
    && (forall j :: 0 <= j < i ==> now[order[j]] == AfterCheck(before[order[j]]))
    && (forall j :: i <= j < |order| ==> now[order[j]] == before[order[j]])
  }

  /** Looking at user `order[i]` extends the scanned prefix by one: the events gain that user's
      event if they fire, and the acknowledgement write touches that user only. */
  lemma ScannedStep(events: seq<Event>, now: map<Uid, Profile>, before: map<Uid, Profile>, order: seq<Uid>, i: nat)
    requires ScannedPrefix(now, before, order, i) && i < |order|
    requires events == ScanEvents(order[..i], before)
    requires forall j, k :: 0 <= j < k < |order| ==> order[j] != order[k]
    ensures var u := order[i];
      && (if Fires(before[u]) then events + [EventFor(before[u])] else events) == ScanEvents(order[..i + 1], before)
      && ScannedPrefix(
           if Fires(before[u]) then now[u := Merge(now[u], Fields(None, None, Some(Total(before[u]))))] else now,
           before, order, i + 1)
  {
    assert order[..i + 1] == order[..i] + [order[i]];
    ScanEventsAppend(order[..i], [order[i]], before);
  }

  /** Once every user of an enumeration has been looked at, the table is `AfterScan(before)`:
      each user that fired has acknowledged exactly their total. */
  lemma ScannedAll(now: map<Uid, Profile>, before: map<Uid, Profile>, order: seq<Uid>)
    requires ScannedPrefix(now, before, order, |order|)
    requires forall u :: u in before ==> u in order
    ensures now == AfterScan(before)
    ensures forall u :: u in before && Fires(before[u]) ==> Acknowledged(now[u]) == Total(now[u])
  {
    forall u | u in now
      ensures now[u] == AfterScan(before)[u]
    {
      var j :| 0 <= j < |order| && order[j] == u;
    }
  }

  /** Scanning `a` then `b` gives the events of `a` followed by those of `b`. */
  lemma {:induction false} ScanEventsAppend(a: seq<Uid>, b: seq<Uid>, users: map<Uid, Profile>)
    ensures ScanEvents(a + b, users) == ScanEvents(a, users) + ScanEvents(b, users)
  {
    if a != [] {
      assert (a + b)[0] == a[0] && (a + b)[1..] == a[1..] + b;
      ScanEventsAppend(a[1..], b, users);
    } else {
      assert a + b == b;
    }
  }

  /** An event is in the scan's result iff some user in the order fires with it. */
  lemma {:induction false} ScanEventsMembers(order: seq<Uid>, users: map<Uid, Profile>, e: Event)
    ensures e in ScanEvents(order, users) <==>
      exists i :: 0 <= i < |order| && order[i] in users && Fires(users[order[i]]) && e == EventFor(users[order[i]])
  {
    if order != [] {
      ScanEventsMembers(order[1..], users, e);
      if e in ScanEvents(order[1..], users) {
        var i :| 0 <= i < |order[1..]| && order[1..][i] in users && Fires(users[order[1..][i]]) && e == EventFor(users[order[1..][i]]);
        assert order[i + 1] == order[1..][i];
      }
      forall i | 0 < i < |order| && order[i] in users && Fires(users[order[i]]) && e == EventFor(users[order[i]])
        ensures e in ScanEvents(order[1..], users)
      {
        assert order[1..][i - 1] == order[i];
      }
    }
  }

  /** Every event reports a positive multiple of the step under the fixed label. */
  lemma {:induction false} ScanEventsWellFormed(order: seq<Uid>, users: map<Uid, Profile>)
    ensures forall e :: e in ScanEvents(order, users) ==> e.kind == Label && e.count > 0 && e.count % Step == 0
  {
    forall e | e in ScanEvents(order, users)
      ensures e.kind == Label && e.count > 0 && e.count % Step == 0
    {
      ScanEventsMembers(order, users, e);
    }
  }

  /** A second scan right after the first announces nothing. */
  lemma {:induction false} RescanIsQuiet(order: seq<Uid>, users: map<Uid, Profile>)
    ensures ScanEvents(order, AfterScan(users)) == []
  {
    if order != [] {
      if order[0] in users {
        AfterCheckQuiet(users[order[0]]);
      }
      RescanIsQuiet(order[1..], users);
    }
  }

  /** Acknowledging is idempotent: a second scan changes no user. */
  lemma AfterScanIdempotent(users: map<Uid, Profile>)
    ensures AfterScan(AfterScan(users)) == AfterScan(users)
  {
    forall u | u in users
      ensures AfterCheck(AfterCheck(users[u])) == AfterCheck(users[u])
    {
      AfterCheckQuiet(users[u]);
    }
  }

  /** A user with 12 gi and 13 no-gi classes and nothing acknowledged gets one event at 25;
      the scan acknowledges 25 and the next scan is quiet. */
  lemma TwentyFiveClassesScenario(name: string)
    ensures var p := Profile(Some(name), None, Some(12), Some(13), Some(0));
      && ScanEvents(["u"], map["u" := p]) == [Event(Some(name), Label, 25)]
      && AfterScan(map["u" := p])["u"].totalMilestone == Some(25)
      && ScanEvents(["u"], AfterScan(map["u" := p])) == []
  {
    var p := Profile(Some(name), None, Some(12), Some(13), Some(0));
    RescanIsQuiet(["u"], map["u" := p]);
  }

  /** The acknowledged total does not exceed the total. */
  predicate Bounded(p: Profile) {
    Acknowledged(p) <= Total(p)
  }

  /** A sign-in never lowers the total and never touches the acknowledged total. */
  lemma SignInRaisesTotal(doc: Option<Profile>, className: ClassName)
    ensures Total(SignedIn(doc, className)) >= Total(doc.GetOr(EmptyProfile))
    ensures Acknowledged(SignedIn(doc, className)) == Acknowledged(doc.GetOr(EmptyProfile))
  {
  }

  /** Sign-ins keep the bound, and a new user starts within it. */
  lemma SignInKeepsBounded(doc: Option<Profile>, className: ClassName)
    requires doc.Some? ==> Bounded(doc.value)
    ensures Bounded(SignedIn(doc, className))
  {
    SignInRaisesTotal(doc, className);
  }

  /** Every document of the table is bounded. */
  ghost predicate AllBounded(users: map<Uid, Profile>) {
    forall u :: u in users ==> Bounded(users[u])
  }

  /** A sign-in's write keeps a bounded table bounded. */
  lemma SignInWriteKeepsBounded(users: map<Uid, Profile>, uid: Uid, className: ClassName)
    requires AllBounded(users)
    ensures AllBounded(users[uid := SignedIn(Get(users, uid), className)])
  {
    SignInKeepsBounded(Get(users, uid), className);
  }

  /** Looking at a user keeps the bound. */
  lemma AfterCheckKeepsBounded(p: Profile)
    requires Bounded(p)
    ensures Bounded(AfterCheck(p))
  {
  }

  /** A scan keeps the bound for every user. */
  lemma AfterScanKeepsBounded(users: map<Uid, Profile>)
    ensures AllBounded(users) ==> AllBounded(AfterScan(users))
  {
    forall u | u in users && Bounded(users[u])
      ensures Bounded(AfterCheck(users[u]))
    {
      AfterCheckKeepsBounded(users[u]);
    }
  }

  /** What happens to one user's document over time: a sign-in of theirs, or a scan. */
  datatype Happening = Attend(className: ClassName) | Scan

  /** The user's document after one step. */
  function Apply(p: Profile, s: Happening): Profile {
    match s
    case Attend(c) => SignedIn(Some(p), c)
    case Scan => AfterCheck(p)
  }

  /** The events a series of steps announces for this user, in order. */
  function EventsOf(p: Profile, steps: seq<Happening>): seq<Event>
    decreases |steps|
  {
    if steps == [] then []
    else
      (if steps[0].Scan? && Fires(p) then [EventFor(p)] else [])
      + EventsOf(Apply(p, steps[0]), steps[1..])
  }

  /** Nothing that happens lowers the total. */
  lemma HappeningRaisesTotal(p: Profile, s: Happening)
    ensures Total(Apply(p, s)) >= Total(p)
  {
    if s.Attend? {
      SignInRaisesTotal(Some(p), s.className);
    }
  }

  /** A total that passes a multiple of 25 without a scan seeing it there is never announced for it:
      once a user's total has passed `m`, no later scan announces `m`, whatever sign-ins and scans
      follow; every later event is above it. */
  lemma {:induction false} PassedThresholdNeverAnnounced(p: Profile, steps: seq<Happening>, m: nat)
    requires Total(p) > m
    ensures forall e :: e in EventsOf(p, steps) ==> e.count > m
    decreases |steps|
  {
    if steps != [] {
      HappeningRaisesTotal(p, steps[0]);
      PassedThresholdNeverAnnounced(Apply(p, steps[0]), steps[1..], m);
    }
  }

  /** The same at one scan: a total that jumps from 20 to 30 between scans does not fire at 30,
      and no later scan announces 25. */
  lemma SkippedThresholdNotAnnounced(name: string, steps: seq<Happening>)
    ensures !Fires(Profile(Some(name), None, Some(30), None, Some(0)))
    ensures forall e :: e in EventsOf(Profile(Some(name), None, Some(30), None, Some(0)), steps) ==> e.count != 25
  {
    PassedThresholdNeverAnnounced(Profile(Some(name), None, Some(30), None, Some(0)), steps, 25);
  }
}
