/** The legacy repository (api/src/repos/image_repo.rs): blobs are keyed by
    the image name alone, the store's revision id defaults to the empty
    token, the listing is joined by file name and not sorted, and revert and
    restore report "nothing to do" as an error. Its metadata calls go to the
    same tables as the current repository's. */
module LegacyRepo {
  import opened Values
  import opened Seqs
  import opened Metadata
  import opened Objects
  import opened ObjectPath
  import opened Listing
  import opened ImageRepo
  import Lineage
  import Catalog
  import RepoProperties

  /** What a legacy `get_one` returns: the content type as the store reports it. */
  datatype LegacyImageData = LegacyImageData(contentType: string, data: seq<byte>)

  /** The outcomes a legacy upload depends on: the id minted for the insert,
      the store's answer, and the failures of the three metadata calls. */
  datatype LegacyUploadEnv = LegacyUploadEnv(freshId: Uuid, put: PutOutcome, insertFails: bool,
                                             lookupFails: bool, versionFault: Fault)

  const DefaultContentType: string := "image/jpeg"

  /** `output.version_id().unwrap_or("")`. */
  function TokenOrEmpty(vid: Option<Token>): (r: Token)
    ensures vid.Some? ==> r == vid.value
    ensures vid.None? ==> r == ""
  {
    if vid.Some? then vid.value else ""
  }

  /** `get_metadata`: an id that does not parse, a failing query and a
      missing image are all errors. */
  function LegacyGetMetadata(t: Tables, parsed: Option<Uuid>, username: string, fails: bool): (r: Result<ImageInfo>)
    ensures r.Ok? <==> GetImageInfo(t, parsed, username, fails).Some?
    ensures r.Ok? ==> r.value == GetImageInfo(t, parsed, username, fails).value
  {
    if parsed.None? then Err(BadId)
    else if fails then Err(DbError)
    else match FindImage(t, parsed.value, username)
      case None => Err(Failed("Image not found"))
      case Some(info) => Ok(info)
  }

  /** `upload`: put the blob under the name's key, insert the image row
      under a fresh id (its error is logged), then look the id up by name
      and insert the version with the store's revision id or "". */
  function LegacyUploadStep(w: World, image: ImageRepo.UploadImage, user: UserInfo, env: LegacyUploadEnv)
    : (World, Result<()>)
  {
    var key := LegacyObjectPath(user.objectBasePath, image.name);
    var (store, put) := PutStep(w.store, key, image.data, env.put);
    if put.Err? then (World(w.db, store), Err(Failed("File upload error")))
    else
      var t1 := InsertImageStep(w.db, env.freshId, image.name, image.contentType, user.username, env.insertFails).after;
      var found := if env.lookupFails then None else FindImageIdByName(t1.images, image.name, user.username);
      var t2 := if found.Some?
                then InsertVersionStep(t1, found.value, TokenOrEmpty(put.value), image.dimensions,
                                       |image.data| as u64, env.versionFault).after
                else t1;
      (World(t2, store), Ok(()))
  }

  /** `get_one`: metadata and store errors become `None`; a failing body
      read is an error; a missing content type defaults to JPEG. */
  function LegacyGetOneResult(w: World, parsed: Option<Uuid>, user: UserInfo, dbFails: bool, s3Fails: bool, readFails: bool)
    : Result<Option<LegacyImageData>>
  {
    match LegacyGetMetadata(w.db, parsed, user.username, dbFails)
    case Err(_) => Ok(None)
    case Ok(info) =>
      match GetRevision(w.store, LegacyObjectPath(user.objectBasePath, info.name), info.version, s3Fails)
      case Err(_) => Ok(None)
      case Ok(rev) =>
        if readFails then Err(ReadFailure)
        else Ok(Some(LegacyImageData(if rev.contentType.Some? then rev.contentType.value else DefaultContentType, rev.data)))
  }

  /** `get_all`: list, read all metadata, page the listing in the store's
      order and keep the objects whose file name is an image name. */
  function LegacyGetAllResult(w: World, user: UserInfo, page: u32, limit: u32, listFails: bool, queryFails: bool)
    : Result<ImageList>
    requires 1 <= page && 1 <= limit <= 100
  {
    match List(w.store, user.objectBasePath, listFails)
    case Err(_) => Err(Failed("Error getting S3 object"))
    case Ok(objects) =>
      if queryFails then Err(DbError)
      else LegacyMerge(objects, FindAllImages(w.db, user.username), page, limit)
  }

  /** `delete`: the metadata, then the object under the name's key. */
  function LegacyDeleteSpec(w: World, parsed: Option<Uuid>, user: UserInfo, findFails: bool, deleteFails: bool, s3Fails: bool)
    : (World, Result<()>)
  {
    match LegacyGetMetadata(w.db, parsed, user.username, findFails)
    case Err(e) => (w, Err(e))
    case Ok(info) =>
      if deleteFails then (w, Err(DbError))
      else
        var t1 := Metadata.DeleteStep(w.db, info.id, false).after;
        var (store, r) := Objects.DeleteStep(w.store, LegacyObjectPath(user.objectBasePath, info.name), s3Fails);
        (World(t1, store), if r.Err? then Err(Failed("Error deleting S3 object")) else Ok(()))
  }

  function NoMoveReason(dir: Direction): string
  {
    if dir == Back then "Error reverting image version" else "Error restoring image to newer version"
  }

  function SameVersionReason(dir: Direction): string
  {
    if dir == Back then "Failed to revert image" else "Failed to restore image to newer version"
  }

  /** `revert` (Back) and `unrevert` (Forward): no new version, or the
      version that was already current, is an error. */
  function LegacyMoveSpec(t: Tables, parsed: Option<Uuid>, user: UserInfo, findFails: bool, dir: Direction, fault: Fault)
    : (Tables, Result<()>)
  {
    match LegacyGetMetadata(t, parsed, user.username, findFails)
    case Err(e) => (t, Err(e))
    case Ok(info) =>
      var s := MoveStep(t, info.id, dir, fault);
      if s.result.Err? then (s.after, Err(s.result.error))
      else if s.result.value.None? then (s.after, Err(Failed(NoMoveReason(dir))))
      else if s.result.value.value == info.version then (s.after, Err(Failed(SameVersionReason(dir))))
      else (s.after, Ok(()))
  }

  // ---------------------------------------------------------------- the repository

  class LegacyImageRepo {
    const db: Database
    const bucket: Bucket

    function State(): World
      reads db, bucket
    {
      World(db.State(), bucket.State())
    }

    ghost predicate Valid()
      reads db, bucket
    {
      db.Valid() && bucket.Valid()
    }

    constructor (db: Database, bucket: Bucket)
      requires db.Valid() && bucket.Valid()
      ensures this.db == db && this.bucket == bucket
    {
      this.db := db;
      this.bucket := bucket;
    }

    /** `upload`. */
    method Upload(image: ImageRepo.UploadImage, user: UserInfo, env: LegacyUploadEnv) returns (r: Result<()>)
      requires Valid()
      modifies db, bucket
      ensures Valid()
      ensures (State(), r) == LegacyUploadStep(old(State()), image, user, env)
    {
      var imagePath := LegacyObjectPath(user.objectBasePath, image.name);
      var output := bucket.PutObject(imagePath, image.data, env.put);
      if output.Err? {
        return Err(Failed("File upload error"));
      }
      var _ := db.InsertImage(env.freshId, image.name, image.contentType, user.username, env.insertFails);
      var found := if env.lookupFails then None else FindImageIdByName(db.images, image.name, user.username);
      if found.Some? {
        var versionId := TokenOrEmpty(output.value);
        var _ := db.InsertImageVersion(found.value, versionId, image.dimensions, |image.data| as u64, env.versionFault);
      }
      r := Ok(());
    }

    /** `get_one`. */
    method GetOne(parsed: Option<Uuid>, user: UserInfo, dbFails: bool, s3Fails: bool, readFails: bool)
      returns (r: Result<Option<LegacyImageData>>)
      ensures r == LegacyGetOneResult(State(), parsed, user, dbFails, s3Fails, readFails)
    {
      var image := LegacyGetMetadata(db.State(), parsed, user.username, dbFails);
      if image.Err? {
        return Ok(None);
      }
      var imagePath := LegacyObjectPath(user.objectBasePath, image.value.name);
      var output := GetRevision(bucket.State(), imagePath, image.value.version, s3Fails);
      if output.Err? {
        return Ok(None);
      }
      var contentType := if output.value.contentType.Some? then output.value.contentType.value else DefaultContentType;
      if readFails {
        return Err(ReadFailure);
      }
      r := Ok(Some(LegacyImageData(contentType, output.value.data)));
    }

    /** `get_all`. */
    method GetAll(user: UserInfo, page: u32, limit: u32, listFails: bool, queryFails: bool) returns (r: Result<ImageList>)
      requires 1 <= page && 1 <= limit <= 100
      ensures r == LegacyGetAllResult(State(), user, page, limit, listFails, queryFails)
    {
      var output := List(bucket.State(), user.objectBasePath, listFails);
      if output.Err? {
        return Err(Failed("Error getting S3 object"));
      }
      var objects := output.value;
      var total := |objects|;
      if queryFails {
        return Err(DbError);
      }
      var dbImages := FindAllImages(db.State(), user.username);
      var imageMap := BuildNameMap(dbImages);
      var window := PageWindow(total, page, limit);
      if window.Err? {
        return Err(SlicePanic);
      }
      var images := JoinByFileName(objects[window.value.start..window.value.end], imageMap);
      r := Ok(ImageList(images, total, window.value.hasMore));
    }

    /** `delete`. */
    method Delete(parsed: Option<Uuid>, user: UserInfo, findFails: bool, deleteFails: bool, s3Fails: bool)
      returns (r: Result<()>)
      requires Valid()
      modifies db, bucket
      ensures Valid()
      ensures (State(), r) == LegacyDeleteSpec(old(State()), parsed, user, findFails, deleteFails, s3Fails)
    {
      var image := LegacyGetMetadata(db.State(), parsed, user.username, findFails);
      if image.Err? {
        return Err(image.error);
      }
      var deleted := db.DeleteImage(image.value.id, deleteFails);
      if deleted.Err? {
        return Err(DbError);
      }
      var imagePath := LegacyObjectPath(user.objectBasePath, image.value.name);
      var removed := bucket.DeleteObject(imagePath, s3Fails);
      if removed.Err? {
        return Err(Failed("Error deleting S3 object"));
      }
      r := Ok(());
    }

    method Move(parsed: Option<Uuid>, user: UserInfo, findFails: bool, dir: Direction, fault: Fault) returns (r: Result<()>)
      requires Valid()
      modifies db
      ensures Valid()
      ensures (db.State(), r) == LegacyMoveSpec(old(db.State()), parsed, user, findFails, dir, fault)
    {
      var image := LegacyGetMetadata(db.State(), parsed, user.username, findFails);
      if image.Err? {
        return Err(image.error);
      }
      var moved := db.MoveCurrent(image.value.id, dir, fault);
      if moved.Err? {
        return Err(moved.error);
      }
      if moved.value.None? {
        return Err(Failed(NoMoveReason(dir)));
      }
      if moved.value.value == image.value.version {
        return Err(Failed(SameVersionReason(dir)));
      }
      r := Ok(());
    }

    /** `revert`. */
    method Revert(parsed: Option<Uuid>, user: UserInfo, findFails: bool, fault: Fault) returns (r: Result<()>)
      requires Valid()
      modifies db
      ensures Valid()
      ensures (db.State(), r) == LegacyMoveSpec(old(db.State()), parsed, user, findFails, Back, fault)
    {
      r := Move(parsed, user, findFails, Back, fault);
    }

    /** `unrevert`. */
    method Unrevert(parsed: Option<Uuid>, user: UserInfo, findFails: bool, fault: Fault) returns (r: Result<()>)
      requires Valid()
      modifies db
      ensures Valid()
      ensures (db.State(), r) == LegacyMoveSpec(old(db.State()), parsed, user, findFails, Forward, fault)
    {
      r := Move(parsed, user, findFails, Forward, fault);
    }
  }

  // ---------------------------------------------------------------- properties

  /** Legacy upload then get: with a versioned store returning a token no
      row has and working metadata calls, `get_one` on the image's id
      returns the uploaded bytes, with the store's content type or JPEG. */
  lemma LegacyUploadThenGetOne(w: World, image: ImageRepo.UploadImage, user: UserInfo, env: LegacyUploadEnv,
                               token: Token, ct: Option<string>)
    requires Schema(w.db) && OneCurrentPerImage(w.db.versions)
    requires !env.insertFails && !env.lookupFails && env.versionFault == NoFault
    requires env.put == PutOk(Some(token), ct) && RepoProperties.FreshToken(w.db, token)
    requires !HasImage(w.db.images, env.freshId)
    ensures var (w1, r) := LegacyUploadStep(w, image, user, env);
            var t1 := InsertImageStep(w.db, env.freshId, image.name, image.contentType, user.username, false).after;
            var id := FindImageIdByName(t1.images, image.name, user.username);
      && r == Ok(())
      && id.Some?
      && OneCurrentPerImage(w1.db.versions)
      && LegacyGetOneResult(w1, id, user, false, false, false)
         == Ok(Some(LegacyImageData(if ct.Some? then ct.value else DefaultContentType, image.data)))
  {
    var key := LegacyObjectPath(user.objectBasePath, image.name);
    PutThenGet(w.store, key, image.data, token, ct);
    var t1 := InsertImageStep(w.db, env.freshId, image.name, image.contentType, user.username, false).after;
    var k := LegacyUploadedRow(w.db, image, user, env.freshId);
    RepoProperties.InsertedVersionIsFound(t1, k, token, image.dimensions, |image.data| as u64);
  }

  /** After the legacy image insert the name finds a row with that name and
      owner, whether it was just added or already there. */
  lemma LegacyUploadedRow(t: Tables, image: ImageRepo.UploadImage, user: UserInfo, freshId: Uuid) returns (k: nat)
    requires Schema(t) && !HasImage(t.images, freshId)
    ensures var t1 := InsertImageStep(t, freshId, image.name, image.contentType, user.username, false).after;
      && Schema(t1) && t1.versions == t.versions && k < |t1.images|
      && FindImageIdByName(t1.images, image.name, user.username) == Some(t1.images[k].id)
      && t1.images[k].name == image.name && t1.images[k].username == user.username
  {
    var t1 := InsertImageStep(t, freshId, image.name, image.contentType, user.username, false).after;
    Catalog.InsertImageEffect(t, freshId, image.name, image.contentType, user.username);
    InsertImageKeepsSchema(t, freshId, image.name, image.contentType, user.username, false);
    var id := FindImageIdByName(t1.images, image.name, user.username).value;
    k :| 0 <= k < |t1.images| && t1.images[k].id == id
         && t1.images[k].name == image.name && t1.images[k].username == user.username;
  }

  /** Revert fails exactly at the initial version and restore exactly at the
      latest one; everywhere else they succeed (tokens unique, no fault). */
  lemma LegacyMoveFailsOnlyAtTheEnds(t: Tables, id: Uuid, user: UserInfo, dir: Direction)
    requires Schema(t) && OneCurrentPerImage(t.versions) && TokensUnique(t.versions)
    requires LegacyGetMetadata(t, Some(id), user.username, false).Ok?
    ensures CurrentVersion(t.versions, id).Some?
    ensures var f := Facts(t.versions, CurrentVersion(t.versions, id).value);
      LegacyMoveSpec(t, Some(id), user, false, dir, NoFault).1.Ok?
      <==> (if dir == Back then !f.initialVersion else !f.latestVersion)
    ensures LegacyMoveSpec(t, Some(id), user, false, dir, NoFault).1.Err? ==>
      LegacyMoveSpec(t, Some(id), user, false, dir, NoFault) == (t, Err(Failed(NoMoveReason(dir))))
  {
    LegacyMoveOutcome(t, id, user, dir);
    Lineage.NoNeighbourAtEnds(t.versions, CurrentVersion(t.versions, id).value);
  }

  /** A legacy move fails with "no new version" exactly when the metadata
      layer finds no neighbour; otherwise it succeeds with the move done. */
  lemma LegacyMoveOutcome(t: Tables, id: Uuid, user: UserInfo, dir: Direction)
    requires TokensUnique(t.versions)
    requires LegacyGetMetadata(t, Some(id), user.username, false).Ok?
    ensures CurrentVersion(t.versions, id).Some?
    ensures var n := Neighbour(t.versions, id, CurrentVersion(t.versions, id).value, dir);
      LegacyMoveSpec(t, Some(id), user, false, dir, NoFault)
      == if n.None? then (t, Err(Failed(NoMoveReason(dir)))) else (MoveStep(t, id, dir, NoFault).after, Ok(()))
  {
    LegacyMetadataIsCurrent(t, id, user);
    var n := Neighbour(t.versions, id, CurrentVersion(t.versions, id).value, dir);
    RepoProperties.MoveOutcome(t, id, dir);
    if n.Some? {
      RepoProperties.MovedTokenDiffers(t, id, dir);
    }
  }

  /** The metadata a legacy move starts from names the image and its current
      row's token. */
  lemma LegacyMetadataIsCurrent(t: Tables, id: Uuid, user: UserInfo)
    requires LegacyGetMetadata(t, Some(id), user.username, false).Ok?
    ensures CurrentVersion(t.versions, id).Some?
    ensures var info := LegacyGetMetadata(t, Some(id), user.username, false).value;
      info.id == id && info.version == CurrentVersion(t.versions, id).value.version
  {
  }

  /** A legacy delete removes the metadata before the blob under the name's
      key; if a metadata step fails, the store is untouched. */
  lemma LegacyDeleteEffect(w: World, parsed: Option<Uuid>, user: UserInfo, deleteFails: bool, s3Fails: bool)
    requires WorldValid(w)
    ensures var (w1, r) := LegacyDeleteSpec(w, parsed, user, false, deleteFails, s3Fails);
            var info := LegacyGetMetadata(w.db, parsed, user.username, false);
      && WorldValid(w1)
      && (info.Err? || deleteFails ==> w1 == w && r.Err?)
      && (info.Ok? && !deleteFails ==>
            && !HasImage(w1.db.images, info.value.id)
            && (forall k :: 0 <= k < |w1.db.versions| ==> w1.db.versions[k].imageId != info.value.id)
            && (r.Ok? <==> !s3Fails)
            && (s3Fails ==> w1.store == w.store)
            && (!s3Fails ==> !IsLive(w1.store, LegacyObjectPath(user.objectBasePath, info.value.name))))
  {
    var info := LegacyGetMetadata(w.db, parsed, user.username, false);
    if info.Ok? && !deleteFails {
      Catalog.DeleteEffect(w.db, info.value.id);
      DeleteKeepsSchema(w.db, info.value.id, false);
      Objects.DeleteEffect(w.store, LegacyObjectPath(user.objectBasePath, info.value.name));
    }
  }

  // ---------------------------------------------------------------- the empty token

  const Ann: UserInfo := UserInfo("ann", "ann")
  const Photo: ImageRepo.UploadImage := ImageRepo.UploadImage("cat.png", [1], Png, (1, 1))
  const Empty: World := World(Tables([], [], 0), Store([], map[], 0))

  function UnversionedEnv(id: Uuid): LegacyUploadEnv
  {
    LegacyUploadEnv(id, PutOk(None, None), false, false, NoFault)
  }

  /** Against a store that returns no revision id, every legacy upload of a
      name inserts a current row with the token "", and the demotion spares
      rows with that token: two uploads of one image leave it with two
      current rows. */
  lemma LegacyUnversionedUploadsLeaveTwoCurrent()
    ensures var (w1, r1) := LegacyUploadStep(Empty, Photo, Ann, UnversionedEnv("a"));
            var (w2, r2) := LegacyUploadStep(w1, Photo, Ann, UnversionedEnv("b"));
      && r1 == Ok(()) && r2 == Ok(())
      && OneCurrentPerImage(w1.db.versions)
      && !AtMostOneCurrent(w2.db.versions)
  {
    var row := ImageRow("a", "cat.png", Png, "ann", 0);
    var t1 := InsertImageStep(Empty.db, "a", "cat.png", Png, "ann", false).after;
    assert t1 == Tables([row], [], 1);
    assert FindImageIdByName(t1.images, "cat.png", "ann") == Some("a");
    assert HasImage(t1.images, "a") by { assert t1.images[0].id == "a"; }
    var v1 := NewVersionRow("a", "", (1, 1), 1, 1);
    var w1db := InsertVersionStep(t1, "a", "", (1, 1), 1, NoFault).after;
    assert w1db.versions == Demote([v1], "a", "");
    assert w1db.versions == [v1];
    assert w1db == Tables([row], [v1], 2);
    assert IsCurrentOf(w1db.versions[0], "a");
    var w1 := LegacyUploadStep(Empty, Photo, Ann, UnversionedEnv("a")).0;
    assert w1.db == w1db;
    assert InsertImageStep(w1db, "b", "cat.png", Png, "ann", false).after == w1db;
    var v2 := NewVersionRow("a", "", (1, 1), 1, 2);
    var w2db := InsertVersionStep(w1db, "a", "", (1, 1), 1, NoFault).after;
    assert w2db.versions == Demote([v1, v2], "a", "");
    assert w2db.versions[0] == v1 && w2db.versions[1] == v2;
  }

  /** The current repository on the same uploads: no revision id, no version
      row, so the invariant holds after both. */
  lemma CurrentUnversionedUploadsKeepOneCurrent()
    ensures var env := UploadEnv(false, "a", PutOk(None, None), false, NoFault);
            var (w1, r1) := UploadImageStep(Empty, Photo, Ann, env);
            var (w2, r2) := UploadImageStep(w1, Photo, Ann, env.(freshId := "b"));
      && r1 == Ok(()) && r2 == Ok(())
      && OneCurrentPerImage(w2.db.versions)
  {
    var env := UploadEnv(false, "a", PutOk(None, None), false, NoFault);
    assert Schema(Empty.db) && OneCurrentPerImage(Empty.db.versions) && TokensUnique(Empty.db.versions);
    RepoProperties.UploadKeepsInvariant(Empty, Photo, Ann, env);
    var w1 := UploadImageStep(Empty, Photo, Ann, env).0;
    RepoProperties.UploadKeepsInvariant(w1, Photo, Ann, env.(freshId := "b"));
  }
}
