/** The `class_signins` collection: one document per (date, class, user), and the
    grouping the GET /signins/:date handler returns (index.js:34-54, 95-105). */
module SignIns {
  import opened Profiles
  import opened Tables

  /** A calendar date as the handler formats it, `YYYY-MM-DD`. */
  type Date = string

  /** The submitted session instant, kept as the value the caller sent. */
  type Timestamp = string

  /** The document path `class_signins/<date>/<className>/<uid>`. */
  datatype SignInKey = SignInKey(date: Date, className: ClassName, uid: Uid)

  /** The document written at that path. */
  datatype SignIn = SignIn(name: string, time: string, sessionType: string, timestamp: Timestamp)

  /** The class collections under `date`, in the order their first document was written. */
  function ClassesOn(order: seq<SignInKey>, date: Date): (cs: seq<ClassName>)
    ensures Distinct(cs)
    ensures forall c :: c in cs <==> exists k :: k in order && k.date == date && k.className == c
  {
    if order == [] then []
    else
      var front := order[..|order| - 1];
      var last := order[|order| - 1];
      var rest := ClassesOn(front, date);
      assert forall k :: k in order <==> k in front || k == last;
      if last.date == date && last.className !in rest then rest + [last.className] else rest
  }

  /** The documents of one class collection, in enumeration order (`classDocs.docs.map(doc => doc.data())`). */
  function RecordsOf(order: seq<SignInKey>, signins: map<SignInKey, SignIn>, date: Date, c: ClassName): seq<SignIn> {
    if order == [] then []
    else
      var k := order[0];
      (if k.date == date && k.className == c && k in signins then [signins[k]] else [])
      + RecordsOf(order[1..], signins, date, c)
  }

  /** A record is listed under (date, c) iff it is the document of some user in that class on that date. */
  lemma {:induction false} RecordsOfMembers(order: seq<SignInKey>, signins: map<SignInKey, SignIn>, date: Date, c: ClassName, r: SignIn)
    ensures r in RecordsOf(order, signins, date, c) <==>
      exists k :: k in order && k in signins && k.date == date && k.className == c && signins[k] == r
  {
    if order != [] {
      RecordsOfMembers(order[1..], signins, date, c, r);
      assert forall k :: k in order <==> k == order[0] || k in order[1..];
    }
  }

  /** A document that was written is listed by the query for its date and class. */
  lemma RecordedIsListed(order: seq<SignInKey>, signins: map<SignInKey, SignIn>, k: SignInKey)
    requires Enumerates(order, signins.Keys)
    requires k in signins
    ensures signins[k] in RecordsOf(order, signins, k.date, k.className)
  {
    RecordsOfMembers(order, signins, k.date, k.className, signins[k]);
  }

  /** The documents of (date, c) among the listed keys. */
  ghost function KeysOf(order: seq<SignInKey>, date: Date, c: ClassName): set<SignInKey> {
    set k | k in order && k.date == date && k.className == c
  }

  /** The tail of a repetition-free list is repetition-free and lacks the head. */
  lemma DistinctTail<K>(order: seq<K>)
    requires Distinct(order) && order != []
    ensures Distinct(order[1..]) && order[0] !in order[1..]
  {
    var tail := order[1..];
    forall i, j | 0 <= i < j < |tail|
      ensures tail[i] != tail[j]
    {
      assert tail[i] == order[i + 1] && tail[j] == order[j + 1];
    }
  }

  /** The keys of (date, c) in a list: the head if it matches, then those of the tail. */
  lemma KeysOfCons(order: seq<SignInKey>, date: Date, c: ClassName)
    requires order != []
    ensures KeysOf(order, date, c) ==
      (if order[0].date == date && order[0].className == c then {order[0]} else {}) + KeysOf(order[1..], date, c)
  {
    assert forall k :: k in order <==> k == order[0] || k in order[1..];
  }

  /** The query lists one record per user document of (date, c): no document twice, none missing. */
  lemma {:induction false} RecordsOfCount(order: seq<SignInKey>, signins: map<SignInKey, SignIn>, date: Date, c: ClassName)
    requires Distinct(order)
    requires forall k :: k in order ==> k in signins
    ensures |RecordsOf(order, signins, date, c)| == |KeysOf(order, date, c)|
  {
    if order != [] {
      DistinctTail(order);
      KeysOfCons(order, date, c);
      RecordsOfCount(order[1..], signins, date, c);
    }
  }

  /** The stored documents of (date, c). */
  ghost function StoredKeys(signins: map<SignInKey, SignIn>, date: Date, c: ClassName): set<SignInKey> {
    set k | k in signins && k.date == date && k.className == c
  }

  /** Under an enumeration, the listed keys of (date, c) are the stored documents of (date, c). */
  lemma KeysOfStored(order: seq<SignInKey>, signins: map<SignInKey, SignIn>, date: Date, c: ClassName)
    requires Enumerates(order, signins.Keys)
    ensures KeysOf(order, date, c) == StoredKeys(signins, date, c)
  {
  }

  /** Under an enumeration, the query for (date, c) lists exactly one record per stored document. */
  lemma RecordsOfStoredCount(order: seq<SignInKey>, signins: map<SignInKey, SignIn>, date: Date, c: ClassName)
    requires Enumerates(order, signins.Keys)
    ensures |RecordsOf(order, signins, date, c)| == |StoredKeys(signins, date, c)|
  {
    RecordsOfCount(order, signins, date, c);
    KeysOfStored(order, signins, date, c);
  }

  /** Writing a document adds its key to its (date, class) bucket; a key already there is not added twice. */
  lemma StoredKeysWrite(signins: map<SignInKey, SignIn>, k: SignInKey, r: SignIn)
    ensures StoredKeys(signins[k := r], k.date, k.className) == StoredKeys(signins, k.date, k.className) + {k}
    ensures k in signins ==> StoredKeys(signins, k.date, k.className) + {k} == StoredKeys(signins, k.date, k.className)
  {
  }

  /** Writing a sign-in and then asking for its date lists the submitted record under its class. */
  lemma RecordThenQuery(order: seq<SignInKey>, signins: map<SignInKey, SignIn>, k: SignInKey, r: SignIn)
    requires Enumerates(order, signins.Keys)
    ensures k.className in ClassesOn(Enrol(order, k), k.date)
    ensures r in RecordsOf(Enrol(order, k), signins[k := r], k.date, k.className)
  {
    EnrolEnumerates(order, signins.Keys, k);
    assert signins[k := r].Keys == signins.Keys + {k};
    RecordedIsListed(Enrol(order, k), signins[k := r], k);
  }

  /** Last write wins: after a sign-in, its class lists one record per user. A new user adds one
      record; a repeat sign-in replaces the old record instead of adding a second. */
  lemma RecordThenQueryCount(order: seq<SignInKey>, signins: map<SignInKey, SignIn>, k: SignInKey, r: SignIn)
    requires Enumerates(order, signins.Keys)
    ensures |RecordsOf(Enrol(order, k), signins[k := r], k.date, k.className)|
         == |RecordsOf(order, signins, k.date, k.className)| + (if k in signins then 0 else 1)
  {
    EnrolEnumerates(order, signins.Keys, k);
    assert signins[k := r].Keys == signins.Keys + {k};
    RecordsOfStoredCount(order, signins, k.date, k.className);
    RecordsOfStoredCount(Enrol(order, k), signins[k := r], k.date, k.className);
    StoredKeysWrite(signins, k, r);
  }
}
