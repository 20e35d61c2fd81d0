/** User documents, the merge-write, and the sign-in counter update of the
    POST /signins handler (index.js:107-123). */
module Profiles {
  import opened Wrappers
  import opened Text

  type Uid = string
  type ClassName = string

  /** A user document of the `users` collection; every field may be absent. */
  datatype Profile = Profile(
    displayName: Option<string>,
    email: Option<string>,
    giCount: Option<nat>,
    nogiCount: Option<nat>,
    totalMilestone: Option<nat>)

  const EmptyProfile := Profile(None, None, None, None, None)

  /** The fields a write carries; a field that is `None` is not written. */
  datatype Fields = Fields(giCount: Option<nat>, nogiCount: Option<nat>, totalMilestone: Option<nat>)

  const NoFields := Fields(None, None, None)

  /** Merge-write: the carried fields replace the document's, all others are kept. */
  function Merge(p: Profile, f: Fields): (r: Profile)
    ensures r.displayName == p.displayName && r.email == p.email
    ensures f.giCount.Some? ==> r.giCount == f.giCount
    ensures f.nogiCount.Some? ==> r.nogiCount == f.nogiCount
    ensures f.totalMilestone.Some? ==> r.totalMilestone == f.totalMilestone
    ensures f.giCount.None? ==> r.giCount == p.giCount
    ensures f.nogiCount.None? ==> r.nogiCount == p.nogiCount
    ensures f.totalMilestone.None? ==> r.totalMilestone == p.totalMilestone
    ensures f == NoFields ==> r == p
  {
    Profile(
      p.displayName,
      p.email,
      if f.giCount.Some? then f.giCount else p.giCount,
      if f.nogiCount.Some? then f.nogiCount else p.nogiCount,
      if f.totalMilestone.Some? then f.totalMilestone else p.totalMilestone)
  }

  /** Writing the same fields twice is writing them once. */
  lemma MergeIdempotent(p: Profile, f: Fields)
    ensures Merge(Merge(p, f), f) == Merge(p, f)
  {
  }

  /** `set(fields, {merge: true})`: an absent document is created holding just the fields. */
  function SetMerge(doc: Option<Profile>, f: Fields): (r: Profile)
    ensures doc.None? ==> r.displayName == None && r.email == None
    ensures doc.None? ==> r.giCount == f.giCount && r.nogiCount == f.nogiCount && r.totalMilestone == f.totalMilestone
    ensures doc.Some? ==> r == Merge(doc.value, f)
  {
    Merge(doc.GetOr(EmptyProfile), f)
  }

  /** The gi counter as the sign-in handler reads it: absent document or field is 0. */
  function GiOf(doc: Option<Profile>): nat {
    match doc
    case None => 0
    case Some(p) => p.giCount.GetOr(0)
  }

  /** The no-gi counter as the sign-in handler reads it. */
  function NogiOf(doc: Option<Profile>): nat {
    match doc
    case None => 0
    case Some(p) => p.nogiCount.GetOr(0)
  }

  /** Which counter a class counts towards. */
  datatype Discipline = NoGi | Gi | Untracked

  const NoGiMarker: string := "no-gi"
  const GiMarker: string := "gi"

  /** Case-insensitive substring classification; the no-gi test runs first. */
  function Classify(className: ClassName): (d: Discipline)
    ensures d == NoGi <==> Occurs(Lower(className), NoGiMarker)
    ensures d == Gi <==> !Occurs(Lower(className), NoGiMarker) && Occurs(Lower(className), GiMarker)
    ensures d == Untracked <==> !Occurs(Lower(className), NoGiMarker) && !Occurs(Lower(className), GiMarker)
  {
    var lowered := Lower(className);
    if Includes(lowered, NoGiMarker) then NoGi
    else if Includes(lowered, GiMarker) then Gi
    else Untracked
  }

  /** Every no-gi class name also contains the gi marker, so the order of the two tests decides. */
  lemma NoGiAlsoMatchesGi(className: ClassName)
    ensures Occurs(Lower(className), NoGiMarker) ==> Occurs(Lower(className), GiMarker)
  {
    if Occurs(Lower(className), NoGiMarker) {
      assert OccursAt(NoGiMarker, GiMarker, 3);
      OccursTransitive(Lower(className), NoGiMarker, GiMarker, 3);
    }
  }

  /** The `updatedFields` object the handler builds: at most one counter, one above its old value. */
  function CounterFields(doc: Option<Profile>, className: ClassName): Fields {
    match Classify(className)
    case NoGi => Fields(None, Some(NogiOf(doc) + 1), None)
    case Gi => Fields(Some(GiOf(doc) + 1), None, None)
    case Untracked => NoFields
  }

  /** The user document after one sign-in to `className`. */
  function SignedIn(doc: Option<Profile>, className: ClassName): Profile {
    SetMerge(doc, CounterFields(doc, className))
  }

  /** A no-gi class moves the no-gi counter up by one and nothing else, although it also contains "gi". */
  lemma SignInNoGi(doc: Option<Profile>, className: ClassName)
    requires Occurs(Lower(className), NoGiMarker)
    ensures Occurs(Lower(className), GiMarker)
    ensures NogiOf(Some(SignedIn(doc, className))) == NogiOf(doc) + 1
    ensures SignedIn(doc, className) == doc.GetOr(EmptyProfile).(nogiCount := Some(NogiOf(doc) + 1))
  {
    NoGiAlsoMatchesGi(className);
  }

  /** A gi class (and not no-gi) moves the gi counter up by one and nothing else. */
  lemma SignInGi(doc: Option<Profile>, className: ClassName)
    requires !Occurs(Lower(className), NoGiMarker) && Occurs(Lower(className), GiMarker)
    ensures GiOf(Some(SignedIn(doc, className))) == GiOf(doc) + 1
    ensures SignedIn(doc, className) == doc.GetOr(EmptyProfile).(giCount := Some(GiOf(doc) + 1))
  {
  }

  /** A class with neither marker writes no field: the document is unchanged, or created empty. */
  lemma SignInUntracked(doc: Option<Profile>, className: ClassName)
    requires !Occurs(Lower(className), NoGiMarker) && !Occurs(Lower(className), GiMarker)
    ensures doc.Some? ==> SignedIn(doc, className) == doc.value
    ensures doc.None? ==> SignedIn(doc, className) == EmptyProfile
  {
  }

  /** A first gi sign-in of an unknown user gives a document with giCount 1 and nothing else. */
  lemma FirstGiSignIn(className: ClassName)
    requires Classify(className) == Gi
    ensures SignedIn(None, className) == EmptyProfile.(giCount := Some(1))
  {
  }

  /** Every class name that starts with "No-Gi" counts as no-gi, although it contains "gi" too. */
  lemma NoGiPrefixIsNoGi(rest: string)
    ensures Classify("No-Gi" + rest) == NoGi
  {
    var lowered := Lower("No-Gi" + rest);
    assert lowered[..5] == Lower("No-Gi") == NoGiMarker;
    assert OccursAt(lowered, NoGiMarker, 0);
  }

  /** "No-Gi Open Mat" counts as no-gi. */
  lemma NoGiOpenMatIsNoGi()
    ensures Classify("No-Gi Open Mat") == NoGi
  {
    NoGiPrefixIsNoGi(" Open Mat");
    assert "No-Gi" + " Open Mat" == "No-Gi Open Mat";
  }

  /** "Beginner" counts as gi: the match is on substrings, not on words. */
  lemma BeginnerIsGi()
    ensures Classify("Beginner") == Gi
  {
    assert Lower("Beginner") == "beginner";
    assert OccursAt("beginner", GiMarker, 2);
    MissingCharacter("beginner", NoGiMarker, 1);
  }

  /** "Open Mat" contains neither marker and counts towards nothing. */
  lemma OpenMatIsUntracked()
    ensures Classify("Open Mat") == Untracked
  {
    assert Lower("Open Mat") == "open mat";
    MissingCharacter("open mat", GiMarker, 0);
    NoGiAlsoMatchesGi("Open Mat");
  }

  /** The user document after a series of sign-ins, in order. */
  function Replay(doc: Option<Profile>, classNames: seq<ClassName>): Option<Profile>
    decreases |classNames|
  {
    if classNames == [] then doc else Replay(Some(SignedIn(doc, classNames[0])), classNames[1..])
  }

  /** How many of the class names classify as `d`. */
  function CountOf(classNames: seq<ClassName>, d: Discipline): nat {
    if classNames == [] then 0
    else (if Classify(classNames[0]) == d then 1 else 0) + CountOf(classNames[1..], d)
  }

  /** After N sign-ins of which M are gi and K no-gi, each counter has gone up by exactly M and K. */
  lemma {:induction false} ReplayCounts(doc: Option<Profile>, classNames: seq<ClassName>)
    ensures GiOf(Replay(doc, classNames)) == GiOf(doc) + CountOf(classNames, Gi)
    ensures NogiOf(Replay(doc, classNames)) == NogiOf(doc) + CountOf(classNames, NoGi)
    ensures CountOf(classNames, Gi) + CountOf(classNames, NoGi) <= |classNames|
    decreases |classNames|
  {
    if classNames != [] {
      ReplayCounts(Some(SignedIn(doc, classNames[0])), classNames[1..]);
    }
  }

  /** Sign-ins never touch the name, the email or the acknowledged milestone. */
  lemma {:induction false} ReplayKeepsOtherFields(doc: Option<Profile>, classNames: seq<ClassName>)
    requires classNames != []
    ensures Replay(doc, classNames).Some?
    ensures Replay(doc, classNames).value.displayName == doc.GetOr(EmptyProfile).displayName
    ensures Replay(doc, classNames).value.email == doc.GetOr(EmptyProfile).email
    ensures Replay(doc, classNames).value.totalMilestone == doc.GetOr(EmptyProfile).totalMilestone
    decreases |classNames|
  {
    if classNames[1..] != [] {
      ReplayKeepsOtherFields(Some(SignedIn(doc, classNames[0])), classNames[1..]);
    }
  }
}
