/** The versioned object store the repositories write blobs to, as state:
    the live objects (what a listing shows) and the stored revisions, each
    addressed by key and revision id. Revision ids and the outcome of a put
    are chosen by the store and come in as parameters. */
module Objects {
  import opened Values
  import opened Seqs
  import Text

  /** A stored revision: its bytes and the content type the store reports. */
  datatype Revision = Revision(data: seq<byte>, contentType: Option<string>)

  /** A live object: the key, when it was last written and its revision id. */
  datatype LiveObject = LiveObject(key: string, lastModified: nat, versionId: Option<Token>)

  datatype Store = Store(live: seq<LiveObject>, revisions: map<(string, Token), Revision>, clock: nat)

  /** One entry of a listing: the SDK gives both fields as optional. */
  datatype ListEntry = ListEntry(key: Option<string>, lastModified: Option<nat>)

  /** What the store answers to a put. */
  datatype PutOutcome = PutFails | PutOk(versionId: Option<Token>, contentType: Option<string>)

  function LiveKey(o: LiveObject): string { o.key }

  /** Keys of live objects are unique and every live object was written
      before the store clock. */
  predicate Wellformed(s: Store)
  {
    && DistinctBy(s.live, LiveKey)
    && forall k :: 0 <= k < |s.live| ==> s.live[k].lastModified < s.clock
  }

  predicate IsLive(s: Store, key: string)
  {
    exists k :: 0 <= k < |s.live| && s.live[k].key == key
  }

  /** The live list with `o` written: it replaces the object with that key
      where it stands, or joins at the end. */
  function Upsert(live: seq<LiveObject>, o: LiveObject): (r: seq<LiveObject>)
    ensures (exists k :: 0 <= k < |live| && live[k].key == o.key) ==> |r| == |live|
    ensures !(exists k :: 0 <= k < |live| && live[k].key == o.key) ==> r == live + [o]
    ensures forall k :: 0 <= k < |live| ==> r[k] == if live[k].key == o.key then o else live[k]
  {
    if exists k :: 0 <= k < |live| && live[k].key == o.key then
      seq(|live|, k requires 0 <= k < |live| => if live[k].key == o.key then o else live[k])
    else live + [o]
  }

  /** `put_object`: a failing call changes nothing; otherwise the object is
      live with the new timestamp, and the revision is kept under the id the
      store returned (an unversioned store returns none). */
  function PutStep(s: Store, key: string, data: seq<byte>, outcome: PutOutcome): (Store, Result<Option<Token>>)
  {
    match outcome
    case PutFails => (s, Err(S3Error))
    case PutOk(vid, ct) =>
      var revisions := if vid.Some? then s.revisions[(key, vid.value) := Revision(data, ct)] else s.revisions;
      (Store(Upsert(s.live, LiveObject(key, s.clock, vid)), revisions, s.clock + 1), Ok(vid))
  }

  /** `get_object` of one revision: an error when the call fails or the
      revision does not exist. */
  function GetRevision(s: Store, key: string, version: Token, fails: bool): (r: Result<Revision>)
    ensures r.Ok? <==> !fails && (key, version) in s.revisions
    ensures r.Ok? ==> r.value == s.revisions[(key, version)]
  {
    if fails || (key, version) !in s.revisions then Err(S3Error)
    else Ok(s.revisions[(key, version)])
  }

  function LiveUnder(live: seq<LiveObject>, prefix: string): (r: seq<ListEntry>)
    ensures |r| <= |live|
  {
    if |live| == 0 then []
    else
      var rest := LiveUnder(live[1..], prefix);
      if Text.StartsWith(live[0].key, prefix) then [ListEntry(Some(live[0].key), Some(live[0].lastModified))] + rest
      else rest
  }

  /** `list_objects_v2` with a prefix: the live objects under the prefix, in
      the store's order. */
  function List(s: Store, prefix: string, fails: bool): Result<seq<ListEntry>>
  {
    if fails then Err(S3Error) else Ok(LiveUnder(s.live, prefix))
  }

  function NotKey(key: string): LiveObject -> bool { (o: LiveObject) => o.key != key }

  /** `delete_object` without a revision id: the object stops being live;
      in a versioned store its revisions stay readable. */
  function DeleteStep(s: Store, key: string, fails: bool): (Store, Result<()>)
  {
    if fails then (s, Err(S3Error)) else (s.(live := Filter(s.live, NotKey(key))), Ok(()))
  }

  // ---------------------------------------------------------------- properties

  lemma PutKeepsWellformed(s: Store, key: string, data: seq<byte>, outcome: PutOutcome)
    requires Wellformed(s)
    ensures Wellformed(PutStep(s, key, data, outcome).0)
  {
    if outcome.PutOk? {
      var o := LiveObject(key, s.clock, outcome.versionId);
      var r := Upsert(s.live, o);
      if !exists k :: 0 <= k < |s.live| && s.live[k].key == key {
        assert r == s.live + [o];
      }
    }
  }

  /** Put then get: the revision id a put returns reads back the bytes just
      written, and the object is live; other revisions are unchanged. */
  lemma PutThenGet(s: Store, key: string, data: seq<byte>, vid: Token, ct: Option<string>)
    ensures var (s1, r) := PutStep(s, key, data, PutOk(Some(vid), ct));
      && r == Ok(Some(vid))
      && GetRevision(s1, key, vid, false) == Ok(Revision(data, ct))
      && IsLive(s1, key)
      && forall k, v :: (k, v) != (key, vid) ==> GetRevision(s1, k, v, false) == GetRevision(s, k, v, false)
  {
    var s1 := PutStep(s, key, data, PutOk(Some(vid), ct)).0;
    var o := LiveObject(key, s.clock, Some(vid));
    if exists k :: 0 <= k < |s.live| && s.live[k].key == key {
      var k :| 0 <= k < |s.live| && s.live[k].key == key;
      assert s1.live[k] == o;
    } else {
      assert s1.live[|s.live|] == o;
    }
  }

  /** A failing put changes nothing. */
  lemma FailedPutChangesNothing(s: Store, key: string, data: seq<byte>)
    ensures PutStep(s, key, data, PutFails) == (s, Err(S3Error))
  {
  }

  /** After a delete the key is no longer live, every other live object
      stays, and every revision stays readable. */
  lemma DeleteEffect(s: Store, key: string)
    requires Wellformed(s)
    ensures var s1 := DeleteStep(s, key, false).0;
      && Wellformed(s1)
      && !IsLive(s1, key)
      && (forall o :: o in s.live && o.key != key ==> o in s1.live)
      && (forall o :: o in s1.live ==> o in s.live && o.key != key)
      && s1.revisions == s.revisions
  {
    var s1 := DeleteStep(s, key, false).0;
    FilterKeepsDistinct(s.live, NotKey(key), LiveKey);
    assert forall k :: 0 <= k < |s1.live| ==> s1.live[k] in s1.live;
    assert forall k :: 0 <= k < |s1.live| ==> s1.live[k] in s.live;
  }

  /** A listing shows exactly the live objects under the prefix. */
  lemma {:induction false} ListShowsLiveUnder(live: seq<LiveObject>, prefix: string)
    ensures forall e :: e in LiveUnder(live, prefix) <==>
      exists k :: 0 <= k < |live| && Text.StartsWith(live[k].key, prefix)
                  && e == ListEntry(Some(live[k].key), Some(live[k].lastModified))
  {
    if |live| > 0 {
      ListShowsLiveUnder(live[1..], prefix);
      assert forall k :: 1 <= k < |live| ==> live[k] == live[1..][k - 1];
    }
  }

  // ---------------------------------------------------------------- the store

  /** The object store the S3 client talks to. */
  class Bucket {
    var live: seq<LiveObject>
    var revisions: map<(string, Token), Revision>
    var clock: nat

    function State(): Store
      reads this
    {
      Store(live, revisions, clock)
    }

    ghost predicate Valid()
      reads this
    {
      Wellformed(State())
    }

    constructor ()
      ensures Valid() && State() == Store([], map[], 0)
    {
      live, revisions, clock := [], map[], 0;
    }

    /** `s3::upload_object`. */
    method PutObject(key: string, data: seq<byte>, outcome: PutOutcome) returns (r: Result<Option<Token>>)
      requires Valid()
      modifies this
      ensures Valid()
      ensures (State(), r) == PutStep(old(State()), key, data, outcome)
    {
      PutKeepsWellformed(State(), key, data, outcome);
      if outcome.PutFails? {
        return Err(S3Error);
      }
      var vid := outcome.versionId;
      if vid.Some? {
        revisions := revisions[(key, vid.value) := Revision(data, outcome.contentType)];
      }
      live := Upsert(live, LiveObject(key, clock, vid));
      clock := clock + 1;
      r := Ok(vid);
    }

    /** `s3::delete_object`. */
    method DeleteObject(key: string, fails: bool) returns (r: Result<()>)
      requires Valid()
      modifies this
      ensures Valid()
      ensures (State(), r) == DeleteStep(old(State()), key, fails)
    {
      if fails {
        return Err(S3Error);
      }
      DeleteEffect(State(), key);
      live := Filter(live, NotKey(key));
      r := Ok(());
    }
  }
}
