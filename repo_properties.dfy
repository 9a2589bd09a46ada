/** What the current repository's operations promise about the two stores
    together: an upload reads back through `get_one`, uploads keep one
    current version per image, revert and restore report the metadata
    layer's answer, and delete and rename touch what they name. */
module RepoProperties {
  import opened Values
  import opened Seqs
  import opened Metadata
  import opened Objects
  import opened ObjectPath
  import opened Listing
  import opened ImageRepo
  import Lineage
  import Catalog

  /** With unique ids, a row is the one `find_image` picks for its id. */
  lemma RowFoundById(images: seq<ImageRow>, k: nat)
    requires DistinctBy(images, ImageId) && k < |images|
    ensures FindImageRow(images, images[k].id, images[k].username) == Some(images[k])
  {
    var r := FindImageRow(images, images[k].id, images[k].username).value;
    var j := IndexOf(images, r);
    assert ImageId(images[j]) == ImageId(images[k]);
  }

  /** No version row anywhere carries the token. */
  predicate FreshToken(t: Tables, token: Token)
  {
    forall k :: 0 <= k < |t.versions| ==> t.versions[k].version != token
  }

  // ---------------------------------------------------------------- upload_image

  /** An upload whose put fails writes nothing at all. */
  lemma FailedPutWritesNothing(w: World, image: ImageRepo.UploadImage, user: UserInfo, env: UploadEnv)
    requires env.put == PutFails
    ensures UploadImageStep(w, image, user, env) == (w, Err(S3OperationFailure))
  {
  }

  /** After the image-row insert of an upload with a working lookup, the
      image written to has a row with the uploaded name, and the versions
      are untouched. */
  lemma UploadedRow(t: Tables, image: ImageRepo.UploadImage, user: UserInfo, env: UploadEnv) returns (k: nat)
    requires Schema(t) && !env.lookupFails && !env.insertFails && !HasImage(t.images, env.freshId)
    ensures var t1 := ImageRowStep(t, image, user, env);
      && Schema(t1) && t1.versions == t.versions && k < |t1.images|
      && t1.images[k].id == UploadId(t, image, user, env)
      && t1.images[k].name == image.name && t1.images[k].username == user.username
  {
    var id := UploadId(t, image, user, env);
    var t1 := ImageRowStep(t, image, user, env);
    if IsNewUpload(t, image, user, env) {
      Catalog.InsertImageEffect(t, id, image.name, image.contentType, user.username);
      InsertImageKeepsSchema(t, id, image.name, image.contentType, user.username, false);
      k := |t.images|;
    } else {
      var i :| 0 <= i < |t.images| && t.images[i].id == id
               && t.images[i].name == image.name && t.images[i].username == user.username;
      k := i;
    }
  }

  /** Inserting a fresh token for the image in row `k` makes it the image's
      current version, which `find_image` then reports with that row. */
  lemma InsertedVersionIsFound(t: Tables, k: nat, token: Token, dimensions: (u32, u32), size: u64)
    requires Schema(t) && OneCurrentPerImage(t.versions) && k < |t.images| && FreshToken(t, token)
    ensures var row := t.images[k];
            var t2 := InsertVersionStep(t, row.id, token, dimensions, size, NoFault).after;
      && Schema(t2) && OneCurrentPerImage(t2.versions)
      && CurrentVersion(t2.versions, row.id).Some?
      && CurrentVersion(t2.versions, row.id).value.version == token
      && VersionCount(t2.versions, row.id) == VersionCount(t.versions, row.id) + 1
      && FindImage(t2, row.id, row.username) == Some(ImageInfo(row.id, row.name, row.username, row.contentType, token))
  {
    var row := t.images[k];
    assert HasImage(t.images, row.id);
    var t2 := InsertVersionStep(t, row.id, token, dimensions, size, NoFault).after;
    Lineage.InsertVersionKeepsInvariant(t, row.id, token, dimensions, size);
    InsertVersionKeepsSchema(t, row.id, token, dimensions, size, NoFault);
    RowFoundById(t2.images, k);
  }

  /** Upload then get: when the name lookup and the metadata writes succeed
      and the store returns a token no version row has, `get_one` on the id
      written returns the uploaded bytes, and the image has one current
      version, the one just written, one more than before. */
  lemma UploadThenGetOne(w: World, image: ImageRepo.UploadImage, user: UserInfo, env: UploadEnv, token: Token, ct: Option<string>)
    requires Schema(w.db) && OneCurrentPerImage(w.db.versions)
    requires !env.lookupFails && !env.insertFails && env.versionFault == NoFault
    requires env.put == PutOk(Some(token), ct) && FreshToken(w.db, token)
    requires !HasImage(w.db.images, env.freshId)
    ensures var (w1, r) := UploadImageStep(w, image, user, env);
            var id := UploadId(w.db, image, user, env);
      && r == Ok(())
      && Schema(w1.db) && OneCurrentPerImage(w1.db.versions)
      && CurrentVersion(w1.db.versions, id).Some?
      && CurrentVersion(w1.db.versions, id).value.version == token
      && VersionCount(w1.db.versions, id) == VersionCount(w.db.versions, id) + 1
      && GetOneResult(w1, Some(id), user, false, false, false).Ok?
      && GetOneResult(w1, Some(id), user, false, false, false).value.Some?
      && GetOneResult(w1, Some(id), user, false, false, false).value.value.data == image.data
  {
    var id := UploadId(w.db, image, user, env);
    var key := GetObjectPath(user.objectBasePath, id, image.name);
    PutThenGet(w.store, key, image.data, token, ct);
    var k := UploadedRow(w.db, image, user, env);
    var t1 := ImageRowStep(w.db, image, user, env);
    InsertedVersionIsFound(t1, k, token, image.dimensions, |image.data| as u64);
  }

  /** `get_one` answers `None` exactly when the owner has no such image or
      it has no current version; otherwise it reads the revision the current
      row names, under the key derived from the image's name. */
  lemma GetOneSpec(w: World, id: Uuid, user: UserInfo)
    requires Schema(w.db)
    ensures var r := GetOneResult(w, Some(id), user, false, false, false);
            var images, versions := w.db.images, w.db.versions;
      && (r == Ok(None) <==>
            !(exists k :: 0 <= k < |images| && images[k].id == id && images[k].username == user.username)
            || !HasCurrent(versions, id))
      && (r.Ok? && r.value.Some? ==>
            exists k, j :: 0 <= k < |images| && 0 <= j < |versions|
              && images[k].id == id && images[k].username == user.username && IsCurrentOf(versions[j], id)
              && (GetObjectPath(user.objectBasePath, id, images[k].name), versions[j].version) in w.store.revisions
              && r.value.value == ImageData(images[k].contentType,
                   w.store.revisions[(GetObjectPath(user.objectBasePath, id, images[k].name), versions[j].version)].data))
      && (var info := GetImageInfo(w.db, Some(id), user.username, false);
          info.Some? ==>
            var stored := (GetObjectPath(user.objectBasePath, id, info.value.name), info.value.version) in w.store.revisions;
            && (stored <==> r.Ok? && r.value.Some?)
            && (!stored ==> r == Err(S3OperationFailure)))
  {
    Catalog.FindImageSpec(w.db, id, user.username);
    var info := GetImageInfo(w.db, Some(id), user.username, false);
    if info.Some? {
      var row := FindImageRow(w.db.images, id, user.username).value;
      var k := IndexOf(w.db.images, row);
      var j := IndexOf(w.db.versions, CurrentVersion(w.db.versions, id).value);
    }
  }

  /** When the name lookup fails for a name the owner already has, the
      upload still succeeds: the blob is stored under a fresh id while the
      image insert does nothing (the name conflicts) and the version insert
      fails (no such image), so the metadata is unchanged and no image
      refers to the new blob. */
  lemma LookupFailureOrphansBlob(w: World, image: ImageRepo.UploadImage, user: UserInfo, env: UploadEnv, token: Token, ct: Option<string>)
    requires env.lookupFails && env.put == PutOk(Some(token), ct)
    requires FindImageIdByName(w.db.images, image.name, user.username).Some?
    requires !HasImage(w.db.images, env.freshId)
    ensures var (w1, r) := UploadImageStep(w, image, user, env);
      && r == Ok(())
      && w1.db == w.db
      && GetRevision(w1.store, GetObjectPath(user.objectBasePath, env.freshId, image.name), token, false)
         == Ok(Revision(image.data, ct))
  {
    PutThenGet(w.store, GetObjectPath(user.objectBasePath, env.freshId, image.name), image.data, token, ct);
  }

  /** Uploads keep the schema, one current version per image and unique
      tokens, provided the store's token is new and the demotion after the
      version insert does not fail. An upload to a store that returns no
      revision id writes no version row at all. */
  lemma UploadKeepsInvariant(w: World, image: ImageRepo.UploadImage, user: UserInfo, env: UploadEnv)
    requires Schema(w.db) && OneCurrentPerImage(w.db.versions) && TokensUnique(w.db.versions)
    requires env.put.PutOk? && env.put.versionId.Some? ==>
      FreshToken(w.db, env.put.versionId.value) && !FailsAt(env.versionFault, 2)
    ensures var w1 := UploadImageStep(w, image, user, env).0;
      && Schema(w1.db) && OneCurrentPerImage(w1.db.versions) && TokensUnique(w1.db.versions)
      && (env.put.PutOk? && env.put.versionId.None? ==> w1.db.versions == w.db.versions)
  {
    var t := w.db;
    var id := UploadId(t, image, user, env);
    if env.put.PutOk? {
      var t1 := ImageRowStep(t, image, user, env);
      InsertImageKeepsSchema(t, id, image.name, image.contentType, user.username, env.insertFails);
      assert Schema(t1) && t1.versions == t.versions;
      if env.put.versionId.Some? {
        var token, size := env.put.versionId.value, |image.data| as u64;
        var s := InsertVersionStep(t1, id, token, image.dimensions, size, env.versionFault);
        InsertVersionKeepsSchema(t1, id, token, image.dimensions, size, env.versionFault);
        Lineage.InsertVersionKeepsTokensUnique(t1, id, token, image.dimensions, size, env.versionFault);
        if !FailsAt(env.versionFault, 1) && HasImage(t1.images, id) {
          assert s == InsertVersionStep(t1, id, token, image.dimensions, size, NoFault);
          Lineage.InsertVersionKeepsInvariant(t1, id, token, image.dimensions, size);
        }
      }
    }
  }

  // ---------------------------------------------------------------- upload

  /** Uploading a list is uploading a prefix and then the rest. */
  lemma {:induction false} UploadAllSplits(w: World, images: seq<ImageRepo.UploadImage>, user: UserInfo, envs: seq<UploadEnv>, k: nat)
    requires |envs| == |images| && k <= |images|
    requires UploadAll(w, images[..k], user, envs[..k]).1.Ok?
    ensures UploadAll(w, images, user, envs)
            == UploadAll(UploadAll(w, images[..k], user, envs[..k]).0, images[k..], user, envs[k..])
    decreases k
  {
    if k > 0 {
      var step := UploadImageStep(w, images[0], user, envs[0]);
      var prefix, prefixEnvs := images[..k], envs[..k];
      assert prefix[0] == images[0] && prefixEnvs[0] == envs[0];
      assert step.1.Ok?;
      assert prefix[1..] == images[1..][..k - 1] && prefixEnvs[1..] == envs[1..][..k - 1];
      assert images[1..][k - 1..] == images[k..] && envs[1..][k - 1..] == envs[k..];
      UploadAllSplits(step.0, images[1..], user, envs[1..], k - 1);
    }
  }

  /** `upload` stops at the first image whose put fails: the images before
      it stay uploaded, nothing after it is attempted, and the error is the
      store's. */
  lemma UploadStopsAtFirstFailure(w: World, images: seq<ImageRepo.UploadImage>, user: UserInfo, envs: seq<UploadEnv>, k: nat)
    requires |envs| == |images| && k < |images|
    requires UploadAll(w, images[..k], user, envs[..k]).1.Ok?
    requires envs[k].put == PutFails
    ensures UploadAll(w, images, user, envs)
            == (UploadAll(w, images[..k], user, envs[..k]).0, Err(S3OperationFailure))
  {
    UploadAllSplits(w, images, user, envs, k);
    var w1 := UploadAll(w, images[..k], user, envs[..k]).0;
    assert images[k..][0] == images[k] && envs[k..][0] == envs[k];
    FailedPutWritesNothing(w1, images[k], user, envs[k]);
  }

  // ---------------------------------------------------------------- revert and restore

  /** With unique tokens the repository's "same version" check never fires:
      revert and restore report exactly what the metadata layer did, an id
      that does not resolve is a query failure that changes nothing, and the
      invariant is kept. */
  lemma RepoMoveReportsMetadata(t: Tables, parsed: Option<Uuid>, user: UserInfo, dir: Direction)
    requires Schema(t) && OneCurrentPerImage(t.versions) && TokensUnique(t.versions)
    ensures var (after, r) := MoveSpec(t, parsed, user, false, dir, NoFault);
      && OneCurrentPerImage(after.versions) && TokensUnique(after.versions)
      && (GetImageInfo(t, parsed, user.username, false).None? ==> after == t && r == Err(QueryFailure))
      && (GetImageInfo(t, parsed, user.username, false).Some? ==>
            var s := MoveStep(t, parsed.value, dir, NoFault);
            after == s.after && r == s.result)
  {
    if GetImageInfo(t, parsed, user.username, false).Some? {
      Lineage.MoveKeepsInvariant(t, parsed.value, dir, NoFault);
      RepoMoveResolved(t, parsed.value, user, dir);
    }
  }

  lemma RepoMoveResolved(t: Tables, id: Uuid, user: UserInfo, dir: Direction)
    requires TokensUnique(t.versions) && FindImage(t, id, user.username).Some?
    ensures MoveSpec(t, Some(id), user, false, dir, NoFault)
            == (MoveStep(t, id, dir, NoFault).after, MoveStep(t, id, dir, NoFault).result)
  {
    MoveOutcome(t, id, dir);
    if Neighbour(t.versions, id, CurrentVersion(t.versions, id).value, dir).Some? {
      MovedTokenDiffers(t, id, dir);
    }
  }

  /** Without a fault a move reads the current row and reports the
      neighbour's token, or nothing and no change when there is none. */
  lemma MoveOutcome(t: Tables, id: Uuid, dir: Direction)
    requires CurrentVersion(t.versions, id).Some?
    ensures var n := Neighbour(t.versions, id, CurrentVersion(t.versions, id).value, dir);
            var s := MoveStep(t, id, dir, NoFault);
      && s.result.Ok?
      && (n.None? <==> s.result.value.None?)
      && (n.None? ==> s.after == t)
  {
  }

  /** With unique tokens, a move that reports a token reports one other than
      the token current before. */
  lemma MovedTokenDiffers(t: Tables, id: Uuid, dir: Direction)
    requires TokensUnique(t.versions)
    requires MoveStep(t, id, dir, NoFault).result.Ok? && MoveStep(t, id, dir, NoFault).result.value.Some?
    ensures CurrentVersion(t.versions, id).Some?
    ensures MoveStep(t, id, dir, NoFault).result.value.value != CurrentVersion(t.versions, id).value.version
  {
    var prior := CurrentVersion(t.versions, id).value;
    var target := Neighbour(t.versions, id, prior, dir).value;
    var i := IndexOf(t.versions, prior);
    var j := IndexOf(t.versions, target);
    assert VersionToken(t.versions[i]) != VersionToken(t.versions[j]);
  }

  /** A revert through the repository that moved the pointer is undone by a
      restore: the tables are as before and the restore reports the version
      that was current. */
  lemma RepoRevertThenRestore(t: Tables, id: Uuid, user: UserInfo)
    requires Schema(t) && OneCurrentPerImage(t.versions) && TokensUnique(t.versions)
    requires MoveSpec(t, Some(id), user, false, Back, NoFault).1.Ok?
    requires MoveSpec(t, Some(id), user, false, Back, NoFault).1.value.Some?
    ensures var t1 := MoveSpec(t, Some(id), user, false, Back, NoFault).0;
            var (t2, r) := MoveSpec(t1, Some(id), user, false, Forward, NoFault);
      && t2 == t
      && r == Ok(Some(GetImageInfo(t, Some(id), user.username, false).value.version))
  {
    RepoMoveReportsMetadata(t, Some(id), user, Back);
    var s := MoveStep(t, id, Back, NoFault);
    var t1 := s.after;
    Lineage.RevertThenRestore(t, id);
    MoveKeepsSchema(t, id, Back, NoFault);
    Lineage.MoveKeepsInvariant(t, id, Back, NoFault);
    var row := FindImageRow(t.images, id, user.username).value;
    assert t1.images == t.images;
    var from, to := Lineage.MoveSwapsCurrent(t, id, Back);
    assert t1.versions[to].imageId == id && t1.versions[to].current;
    assert HasCurrent(t1.versions, id);
    RepoMoveReportsMetadata(t1, Some(id), user, Forward);
  }

  // ---------------------------------------------------------------- delete

  /** A delete that resolves the image removes its metadata and then its
      blob; when the store call fails the metadata is already gone and the
      blob stays live. When the image does not resolve or the metadata
      delete fails, nothing changes. */
  lemma RepoDeleteEffect(w: World, parsed: Option<Uuid>, user: UserInfo, deleteFails: bool, s3Fails: bool)
    requires WorldValid(w)
    ensures var (w1, r) := DeleteSpec(w, parsed, user, false, deleteFails, s3Fails);
            var info := GetImageInfo(w.db, parsed, user.username, false);
      && WorldValid(w1)
      && (info.None? || deleteFails ==> w1 == w && r == Err(QueryFailure))
      && (info.Some? && !deleteFails ==>
            var key := GetObjectPath(user.objectBasePath, info.value.id, info.value.name);
            && !HasImage(w1.db.images, info.value.id)
            && (forall k :: 0 <= k < |w1.db.versions| ==> w1.db.versions[k].imageId != info.value.id)
            && (r.Ok? <==> !s3Fails)
            && (s3Fails ==> w1.store == w.store && r == Err(S3OperationFailure))
            && (!s3Fails ==> !IsLive(w1.store, key) && w1.store.revisions == w.store.revisions))
  {
    var info := GetImageInfo(w.db, parsed, user.username, false);
    if info.Some? && !deleteFails {
      Catalog.DeleteEffect(w.db, info.value.id);
      DeleteKeepsSchema(w.db, info.value.id, false);
      Objects.DeleteEffect(w.store, GetObjectPath(user.objectBasePath, info.value.id, info.value.name));
    }
  }

  // ---------------------------------------------------------------- rename

  /** After a rename the image resolves under the new name, so `get_one`
      reads the key derived from it; that key is the old one exactly when
      the two names have the same extension. */
  lemma RenameMovesKey(t: Tables, id: Uuid, newName: string, user: UserInfo)
    requires Schema(t)
    requires GetImageInfo(t, Some(id), user.username, false).Some?
    requires RenameSpec(t, Some(id), newName, user, false, false).1.Ok?
    ensures var info := GetImageInfo(t, Some(id), user.username, false).value;
            var t1 := RenameSpec(t, Some(id), newName, user, false, false).0;
            var info1 := GetImageInfo(t1, Some(id), user.username, false);
      && info1 == Some(info.(name := newName))
      && (GetObjectPath(user.objectBasePath, id, newName) == GetObjectPath(user.objectBasePath, id, info.name)
          <==> KeyExtension(newName) == KeyExtension(info.name))
  {
    var info := GetImageInfo(t, Some(id), user.username, false).value;
    var t1 := RenameStep(t, id, newName, false).after;
    var row := FindImageRow(t.images, id, user.username).value;
    var k := IndexOf(t.images, row);
    RenameKeepsSchema(t, id, newName, false);
    RowFoundById(t.images, k);
    RowFoundById(t1.images, k);
    RenameKeepsKeyIffSameExtension(user.objectBasePath, id, info.name, newName);
  }

  // ---------------------------------------------------------------- listing

  /** Every image a listing page returns is one of the user's images,
      described exactly as `get_metadata_for_one` describes it, and it is
      the image whose key the page's object carries. */
  lemma ListingAgreesWithMetadata(w: World, user: UserInfo, page: u32, limit: u32)
    requires Schema(w.db) && 1 <= page && 1 <= limit <= 100
    requires MetadataForAll(w, user, page, limit, false, false).Ok?
    ensures var images := MetadataForAll(w, user, page, limit, false, false).value.images;
      forall i :: 0 <= i < |images| ==>
        MetadataForOne(w.db, Some(images[i].id), user, false) == Ok(Some(images[i]))
  {
    var objects := List(w.store, user.objectBasePath, false).value;
    var rows := FindAllImages(w.db, user.username);
    Listing.MergeContentAndOrder(user.objectBasePath, objects, rows, page, limit);
    var images := MetadataForAll(w, user, page, limit, false, false).value.images;
    forall i | 0 <= i < |images|
      ensures MetadataForOne(w.db, Some(images[i].id), user, false) == Ok(Some(images[i]))
    {
      ListedImageAgrees(w.db, user, images[i]);
    }
  }

  /** An image `find_all_images` lists is what a lookup of its id returns. */
  lemma ListedImageAgrees(t: Tables, user: UserInfo, x: Image)
    requires Schema(t) && x in FindAllImages(t, user.username)
    ensures MetadataForOne(t, Some(x.id), user, false) == Ok(Some(x))
  {
    Catalog.FindAllImagesSpec(t, user.username);
    var j :| 0 <= j < |t.images| && t.images[j].username == user.username && x == ImageOf(t, t.images[j]);
  }
}
