/** The current repository (api/repos/src/image_repo.rs): it composes the
    metadata layer with the object store. Each operation is a function from
    the world before (tables and store) to the world after and the result,
    and a method of `Repo` runs the same steps against the two stores.
    Parsing the id text, minting a UUID and every failing call come in as
    parameters. */
module ImageRepo {
  import opened Values
  import opened Seqs
  import opened Metadata
  import opened Objects
  import opened ObjectPath
  import opened Listing
  import Lineage

  datatype UserInfo = UserInfo(username: string, objectBasePath: string)

  /** A byte buffer; its length is a 64-bit `usize`. */
  type Bytes = s: seq<byte> | |s| < 0x1_0000_0000_0000_0000

  datatype UploadImage = UploadImage(name: string, data: Bytes, contentType: ContentType, dimensions: (u32, u32))

  datatype ImageData = ImageData(contentType: ContentType, data: seq<byte>)

  /** What the outside world decides during one upload: whether the name
      lookup fails, the freshly minted id, the store's answer to the put,
      and whether the two metadata writes fail. */
  datatype UploadEnv = UploadEnv(lookupFails: bool, freshId: Uuid, put: PutOutcome,
                                 insertFails: bool, versionFault: Fault)

  datatype World = World(db: Tables, store: Store)

  predicate WorldValid(w: World)
  {
    Schema(w.db) && Wellformed(w.store)
  }

  // ---------------------------------------------------------------- operations

  /** `get_image_info`: the image's metadata, or nothing when the id does not
      parse, the query fails, or the user has no such image. */
  function GetImageInfo(t: Tables, parsed: Option<Uuid>, username: string, fails: bool): (r: Option<ImageInfo>)
    ensures r.Some? <==> && parsed.Some? && !fails
                         && (exists k :: 0 <= k < |t.images| && t.images[k].id == parsed.value
                                           && t.images[k].username == username)
                         && HasCurrent(t.versions, parsed.value)
    ensures r.Some? ==> && r.value.id == parsed.value && r.value.username == username
                        && (exists k :: 0 <= k < |t.images| && t.images[k].id == parsed.value
                                          && t.images[k].username == username && t.images[k].name == r.value.name
                                          && t.images[k].contentType == r.value.contentType)
                        && (exists j :: 0 <= j < |t.versions| && IsCurrentOf(t.versions[j], parsed.value)
                                          && t.versions[j].version == r.value.version)
  {
    if parsed.None? || fails then None else FindImage(t, parsed.value, username)
  }

  /** The id `upload_image` writes under: the one found by name, or a fresh
      one when there is none or the lookup fails. */
  function UploadId(t: Tables, image: UploadImage, user: UserInfo, env: UploadEnv): Uuid
  {
    var found := if env.lookupFails then None else FindImageIdByName(t.images, image.name, user.username);
    if found.Some? then found.value else env.freshId
  }

  function IsNewUpload(t: Tables, image: UploadImage, user: UserInfo, env: UploadEnv): bool
  {
    env.lookupFails || FindImageIdByName(t.images, image.name, user.username).None?
  }

  /** The tables after the image-row insert of an upload: only a new image
      gets one. */
  function ImageRowStep(t: Tables, image: UploadImage, user: UserInfo, env: UploadEnv): Tables
  {
    if IsNewUpload(t, image, user, env)
    then InsertImageStep(t, UploadId(t, image, user, env), image.name, image.contentType, user.username, env.insertFails).after
    else t
  }

  /** `upload_image`: put the blob under the derived key, then (logging and
      ignoring their errors) insert the image row for a new image and the
      version row when the store returned a revision id. */
  function UploadImageStep(w: World, image: UploadImage, user: UserInfo, env: UploadEnv): (World, Result<()>)
  {
    var id := UploadId(w.db, image, user, env);
    var key := GetObjectPath(user.objectBasePath, id, image.name);
    var (store, put) := PutStep(w.store, key, image.data, env.put);
    if put.Err? then (World(w.db, store), Err(S3OperationFailure))
    else
      var t1 := ImageRowStep(w.db, image, user, env);
      var t2 := if put.value.Some?
                then InsertVersionStep(t1, id, put.value.value, image.dimensions, |image.data| as u64, env.versionFault).after
                else t1;
      (World(t2, store), Ok(()))
  }

  /** `upload`: the images one after another, stopping at the first error. */
  function UploadAll(w: World, images: seq<UploadImage>, user: UserInfo, envs: seq<UploadEnv>): (World, Result<()>)
    requires |envs| == |images|
    decreases |images|
  {
    if |images| == 0 then (w, Ok(()))
    else
      var (w1, r) := UploadImageStep(w, images[0], user, envs[0]);
      if r.Err? then (w1, r) else UploadAll(w1, images[1..], user, envs[1..])
  }

  /** `get_one`: nothing for an id that does not resolve; otherwise the
      stored revision the metadata names, read from the key derived from the
      image's current name. */
  function GetOneResult(w: World, parsed: Option<Uuid>, user: UserInfo, dbFails: bool, s3Fails: bool, readFails: bool)
    : Result<Option<ImageData>>
  {
    match GetImageInfo(w.db, parsed, user.username, dbFails)
    case None => Ok(None)
    case Some(info) =>
      var key := GetObjectPath(user.objectBasePath, info.id, info.name);
      match GetRevision(w.store, key, info.version, s3Fails)
      case Err(_) => Err(S3OperationFailure)
      case Ok(rev) => if readFails then Err(ReadFailure) else Ok(Some(ImageData(info.contentType, rev.data)))
  }

  /** `get_metadata_for_one`: errors become `None`. */
  function MetadataForOne(t: Tables, parsed: Option<Uuid>, user: UserInfo, fails: bool): Result<Option<Image>>
  {
    if parsed.None? || fails then Ok(None) else Ok(FindImageWithVersionInfo(t, parsed.value, user.username))
  }

  /** `get_metadata_for_all`: list, read all metadata, then sort, page and join. */
  function MetadataForAll(w: World, user: UserInfo, page: u32, limit: u32, listFails: bool, queryFails: bool)
    : Result<ImageList>
    requires 1 <= page && 1 <= limit <= 100
  {
    match List(w.store, user.objectBasePath, listFails)
    case Err(_) => Err(S3OperationFailure)
    case Ok(objects) =>
      if queryFails then Err(QueryFailure)
      else MergeListing(user.objectBasePath, objects, FindAllImages(w.db, user.username), page, limit)
  }

  /** `delete`: metadata first, then the blob; a failing step ends it. */
  function DeleteSpec(w: World, parsed: Option<Uuid>, user: UserInfo, findFails: bool, deleteFails: bool, s3Fails: bool)
    : (World, Result<()>)
  {
    match GetImageInfo(w.db, parsed, user.username, findFails)
    case None => (w, Err(QueryFailure))
    case Some(info) =>
      if deleteFails then (w, Err(QueryFailure))
      else
        var t1 := Metadata.DeleteStep(w.db, info.id, false).after;
        var key := GetObjectPath(user.objectBasePath, info.id, info.name);
        var (store, r) := Objects.DeleteStep(w.store, key, s3Fails);
        (World(t1, store), if r.Err? then Err(S3OperationFailure) else Ok(()))
  }

  /** `revert` (Back) and `restore` (Forward): the metadata move, with a
      result equal to the token current before reported as `None`. */
  function MoveSpec(t: Tables, parsed: Option<Uuid>, user: UserInfo, findFails: bool, dir: Direction, fault: Fault)
    : (Tables, Result<Option<Token>>)
  {
    match GetImageInfo(t, parsed, user.username, findFails)
    case None => (t, Err(QueryFailure))
    case Some(info) =>
      var s := MoveStep(t, info.id, dir, fault);
      if s.result.Err? then (s.after, Err(QueryFailure))
      else if s.result.value == Some(info.version) then (s.after, Ok(None))
      else (s.after, s.result)
  }

  /** `rename`. */
  function RenameSpec(t: Tables, parsed: Option<Uuid>, newName: string, user: UserInfo, findFails: bool, fails: bool)
    : (Tables, Result<Option<string>>)
  {
    match GetImageInfo(t, parsed, user.username, findFails)
    case None => (t, Err(QueryFailure))
    case Some(info) =>
      var s := RenameStep(t, info.id, newName, fails);
      (s.after, if s.result.Err? then Err(QueryFailure) else s.result)
  }

  // ---------------------------------------------------------------- the repository

  class Repo {
    const db: Database
    const bucket: Bucket

    function State(): World
      reads db, bucket
    {
      World(db.State(), bucket.State())
    }

    ghost predicate Valid()
      reads db, bucket
    {
      db.Valid() && bucket.Valid()
    }

    constructor (db: Database, bucket: Bucket)
      requires db.Valid() && bucket.Valid()
      ensures this.db == db && this.bucket == bucket
    {
      this.db := db;
      this.bucket := bucket;
    }

    /** `upload_image`. */
    method UploadImage(image: UploadImage, user: UserInfo, env: UploadEnv) returns (r: Result<()>)
      requires Valid()
      modifies db, bucket
      ensures Valid()
      ensures (State(), r) == UploadImageStep(old(State()), image, user, env)
    {
      var isNew := true;
      var found := if env.lookupFails then None else FindImageIdByName(db.images, image.name, user.username);
      var imageId := env.freshId;
      if found.Some? {
        isNew := false;
        imageId := found.value;
      }
      var imagePath := GetObjectPath(user.objectBasePath, imageId, image.name);
      var output := bucket.PutObject(imagePath, image.data, env.put);
      if output.Err? {
        return Err(S3OperationFailure);
      }
      if isNew {
        var _ := db.InsertImage(imageId, image.name, image.contentType, user.username, env.insertFails);
      }
      if output.value.Some? {
        var _ := db.InsertImageVersion(imageId, output.value.value, image.dimensions, |image.data| as u64, env.versionFault);
      }
      r := Ok(());
    }

    /** `upload`. */
    method Upload(images: seq<UploadImage>, user: UserInfo, envs: seq<UploadEnv>) returns (r: Result<()>)
      requires Valid() && |envs| == |images|
      modifies db, bucket
      ensures Valid()
      ensures (State(), r) == UploadAll(old(State()), images, user, envs)
    {
      for i := 0 to |images|
        invariant Valid()
        invariant UploadAll(old(State()), images, user, envs) == UploadAll(State(), images[i..], user, envs[i..])
      {
        assert images[i..][1..] == images[i + 1..] && envs[i..][1..] == envs[i + 1..];
        var res := UploadImage(images[i], user, envs[i]);
        if res.Err? {
          return res;
        }
      }
      r := Ok(());
    }

    /** `get_one`. */
    method GetOne(parsed: Option<Uuid>, user: UserInfo, dbFails: bool, s3Fails: bool, readFails: bool)
      returns (r: Result<Option<ImageData>>)
      ensures r == GetOneResult(State(), parsed, user, dbFails, s3Fails, readFails)
    {
      var image := GetImageInfo(db.State(), parsed, user.username, dbFails);
      if image.None? {
        return Ok(None);
      }
      var info := image.value;
      var imagePath := GetObjectPath(user.objectBasePath, info.id, info.name);
      var data := GetRevision(bucket.State(), imagePath, info.version, s3Fails);
      if data.Err? {
        return Err(S3OperationFailure);
      }
      if readFails {
        return Err(ReadFailure);
      }
      r := Ok(Some(ImageData(info.contentType, data.value.data)));
    }

    /** `get_metadata_for_one`. */
    method GetMetadataForOne(parsed: Option<Uuid>, user: UserInfo, fails: bool) returns (r: Result<Option<Image>>)
      ensures r == MetadataForOne(db.State(), parsed, user, fails)
    {
      if parsed.None? || fails {
        return Ok(None);
      }
      r := Ok(FindImageWithVersionInfo(db.State(), parsed.value, user.username));
    }

    /** `get_metadata_for_all`. */
    method GetMetadataForAll(user: UserInfo, page: u32, limit: u32, listFails: bool, queryFails: bool)
      returns (r: Result<ImageList>)
      requires 1 <= page && 1 <= limit <= 100
      ensures r == MetadataForAll(State(), user, page, limit, listFails, queryFails)
    {
      var output := List(bucket.State(), user.objectBasePath, listFails);
      if output.Err? {
        return Err(S3OperationFailure);
      }
      var objects := output.value;
      var total := |objects|;
      objects := SortByRecency(objects);
      if queryFails {
        return Err(QueryFailure);
      }
      var dbImages := FindAllImages(db.State(), user.username);
      var imageMap := BuildImageMap(user.objectBasePath, dbImages);
      var window := PageWindow(total, page, limit);
      if window.Err? {
        return Err(SlicePanic);
      }
      var images := JoinByKey(objects[window.value.start..window.value.end], imageMap);
      r := Ok(ImageList(images, total, window.value.hasMore));
    }

    /** `delete`. */
    method Delete(parsed: Option<Uuid>, user: UserInfo, findFails: bool, deleteFails: bool, s3Fails: bool)
      returns (r: Result<()>)
      requires Valid()
      modifies db, bucket
      ensures Valid()
      ensures (State(), r) == DeleteSpec(old(State()), parsed, user, findFails, deleteFails, s3Fails)
    {
      var image := GetImageInfo(db.State(), parsed, user.username, findFails);
      if image.None? {
        return Err(QueryFailure);
      }
      var info := image.value;
      var deleted := db.DeleteImage(info.id, deleteFails);
      if deleted.Err? {
        return Err(QueryFailure);
      }
      var imagePath := GetObjectPath(user.objectBasePath, info.id, info.name);
      var removed := bucket.DeleteObject(imagePath, s3Fails);
      if removed.Err? {
        return Err(S3OperationFailure);
      }
      r := Ok(());
    }

    method Move(parsed: Option<Uuid>, user: UserInfo, findFails: bool, dir: Direction, fault: Fault)
      returns (r: Result<Option<Token>>)
      requires Valid()
      modifies db
      ensures Valid()
      ensures (db.State(), r) == MoveSpec(old(db.State()), parsed, user, findFails, dir, fault)
    {
      var image := GetImageInfo(db.State(), parsed, user.username, findFails);
      if image.None? {
        return Err(QueryFailure);
      }
      var newCurrentVersion := db.MoveCurrent(image.value.id, dir, fault);
      if newCurrentVersion.Err? {
        return Err(QueryFailure);
      }
      if newCurrentVersion.value == Some(image.value.version) {
        return Ok(None);
      }
      r := newCurrentVersion;
    }

    /** `revert`. */
    method Revert(parsed: Option<Uuid>, user: UserInfo, findFails: bool, fault: Fault) returns (r: Result<Option<Token>>)
      requires Valid()
      modifies db
      ensures Valid()
      ensures (db.State(), r) == MoveSpec(old(db.State()), parsed, user, findFails, Back, fault)
    {
      r := Move(parsed, user, findFails, Back, fault);
    }

    /** `restore`. */
    method Restore(parsed: Option<Uuid>, user: UserInfo, findFails: bool, fault: Fault) returns (r: Result<Option<Token>>)
      requires Valid()
      modifies db
      ensures Valid()
      ensures (db.State(), r) == MoveSpec(old(db.State()), parsed, user, findFails, Forward, fault)
    {
      r := Move(parsed, user, findFails, Forward, fault);
    }

    /** `rename`. */
    method Rename(parsed: Option<Uuid>, newName: string, user: UserInfo, findFails: bool, fails: bool)
      returns (r: Result<Option<string>>)
      requires Valid()
      modifies db
      ensures Valid()
      ensures (db.State(), r) == RenameSpec(old(db.State()), parsed, newName, user, findFails, fails)
    {
      var image := GetImageInfo(db.State(), parsed, user.username, findFails);
      if image.None? {
        return Err(QueryFailure);
      }
      var imageName := db.RenameImage(image.value.id, newName, fails);
      if imageName.Err? {
        return Err(QueryFailure);
      }
      r := imageName;
    }
  }
}
