/** The document store as the three request handlers of index.js see it: the
    `class_signins` and `users` collections, each with its enumeration order. */
module Server {
  import opened Wrappers
  import opened Tables
  import opened Profiles
  import opened Milestones
  import opened SignIns

  class Store {
    /** `class_signins/<date>/<className>/<uid>` documents. */
    var signins: map<SignInKey, SignIn>
    /** The order in which the store enumerates sign-in documents. */
    var signinOrder: seq<SignInKey>
    /** `users/<uid>` documents. */
    var users: map<Uid, Profile>
    /** The order in which `db.collection('users').get()` lists users. */
    var userOrder: seq<Uid>

    /** Each enumeration order lists its collection's documents exactly once. */
    ghost predicate Valid()
      reads this
    {
      Enumerates(signinOrder, signins.Keys) && Enumerates(userOrder, users.Keys)
    }

    /** An empty store. */
    constructor ()
      ensures Valid() && AllBounded(users)
      ensures signins == map[] && signinOrder == [] && users == map[] && userOrder == []
    {
      signins, signinOrder := map[], [];
      users, userOrder := map[], [];
    }

    /** POST /signins: overwrite today's document for (className, uid), then merge-write the
        one counter the class name selects into the user's document. `today` is the server's
        date, passed in. */
    method RecordSignIn(today: Date, name: string, uid: Uid, className: ClassName,
                        time: string, sessionType: string, timestamp: Timestamp)
      requires Valid()
      modifies this
      ensures Valid()
      ensures signins == old(signins)[SignInKey(today, className, uid) := SignIn(name, time, sessionType, timestamp)]
      ensures signinOrder == Enrol(old(signinOrder), SignInKey(today, className, uid))
      ensures users == old(users)[uid := SignedIn(Get(old(users), uid), className)]
      ensures userOrder == Enrol(old(userOrder), uid)
      ensures old(AllBounded(users)) ==> AllBounded(users)
    {
      var key := SignInKey(today, className, uid);
      EnrolEnumerates(signinOrder, signins.Keys, key);
      signins := signins[key := SignIn(name, time, sessionType, timestamp)];
      signinOrder := Enrol(signinOrder, key);

      var userDoc := Get(users, uid);
      var updatedFields := CounterFields(userDoc, className);
      EnrolEnumerates(userOrder, users.Keys, uid);
      var written := SetMerge(userDoc, updatedFields);
      users := users[uid := written];
      userOrder := Enrol(userOrder, uid);
      if old(AllBounded(users)) {
        SignInWriteKeepsBounded(old(users), uid, className);
      }
    }

    /** GET /signins/:date: one entry per class collection under `date`, holding its records.
        A date with no sign-ins gives the empty map. */
    method SignInsOn(date: Date) returns (result: map<ClassName, seq<SignIn>>)
      requires Valid()
      ensures result.Keys == set k | k in signins && k.date == date :: k.className
      ensures forall c :: c in result ==> result[c] == RecordsOf(signinOrder, signins, date, c)
      ensures forall c :: c in result ==> result[c] != []
      ensures forall c :: c in result ==> |result[c]| == |StoredKeys(signins, date, c)|
    {
      result := map[];
      var classCollections := ClassesOn(signinOrder, date);
      for i := 0 to |classCollections|
        invariant result.Keys == set j | 0 <= j < i :: classCollections[j]
        invariant forall c :: c in result ==> result[c] == RecordsOf(signinOrder, signins, date, c)
        invariant forall c :: c in result ==> result[c] != []
        invariant forall c :: c in result ==> |result[c]| == |StoredKeys(signins, date, c)|
      {
        var className := classCollections[i];
        assert className in classCollections;
        ghost var k :| k in signinOrder && k.date == date && k.className == className;
        RecordedIsListed(signinOrder, signins, k);
        RecordsOfStoredCount(signinOrder, signins, date, className);
        result := result[className := RecordsOf(signinOrder, signins, date, className)];
      }
      forall c | c in result
        ensures c in set k | k in signins && k.date == date :: k.className
      {
        var j :| 0 <= j < |classCollections| && classCollections[j] == c;
        assert c in classCollections;
        var k :| k in signinOrder && k.date == date && k.className == c;
      }
      forall k | k in signins && k.date == date
        ensures k.className in result
      {
        assert k.className in classCollections;
        var j :| 0 <= j < |classCollections| && classCollections[j] == k.className;
      }
    }

    /** GET /milestones: look at every user once, in enumeration order; announce and
        acknowledge each one that fires. */
    method ScanMilestones() returns (milestones: seq<Event>)
      requires Valid()
      modifies this
      ensures Valid()
      ensures milestones == ScanEvents(old(userOrder), old(users))
      ensures users == AfterScan(old(users))
      ensures userOrder == old(userOrder) && signins == old(signins) && signinOrder == old(signinOrder)
      ensures old(AllBounded(users)) ==> AllBounded(users)
      ensures forall u :: u in old(users) && Fires(old(users)[u]) ==> Acknowledged(users[u]) == Total(users[u])
    {
      var snapshot := users;
      var order := userOrder;
      milestones := [];
      for i := 0 to |order|
        invariant userOrder == order && signins == old(signins) && signinOrder == old(signinOrder)
        invariant milestones == ScanEvents(order[..i], snapshot)
        invariant ScannedPrefix(users, snapshot, order, i)
      {
        var uid := order[i];
        var data := snapshot[uid];
        ScannedStep(milestones, users, snapshot, order, i);
        if Fires(data) {
          milestones := milestones + [EventFor(data)];
          users := users[uid := Merge(users[uid], Fields(None, None, Some(Total(data))))];
        }
      }
      assert order[..|order|] == order;
      ScannedAll(users, snapshot, order);
      AfterScanKeepsBounded(snapshot);
    }
  }
}
