/** Properties of the `image` table statements and the queries over both
    tables: insert by name is idempotent per owner, rename and delete touch
    only their image, and what the lookups return. */
module Catalog {
  import opened Values
  import opened Seqs
  import opened Metadata
  import Lineage

  // ---------------------------------------------------------------- insert_image

  /** `ON CONFLICT (name, username) DO NOTHING`: inserting a name the owner
      already has leaves the tables as they are; otherwise the new row is
      appended and found by its name. */
  lemma InsertImageEffect(t: Tables, id: Uuid, name: string, contentType: ContentType, username: string)
    requires Schema(t)
    ensures var s := InsertImageStep(t, id, name, contentType, username, false);
      && (FindImageIdByName(t.images, name, username).Some? ==> s == Step(t, Ok(())))
      && (FindImageIdByName(t.images, name, username).None? && !HasImage(t.images, id) ==>
            && s.result == Ok(())
            && s.after.images == t.images + [ImageRow(id, name, contentType, username, t.clock)]
            && s.after.versions == t.versions
            && FindImageIdByName(s.after.images, name, username) == Some(id))
      && (FindImageIdByName(t.images, name, username).None? && HasImage(t.images, id) ==> s.result.Err?)
  {
    var s := InsertImageStep(t, id, name, contentType, username, false);
    if FindImageIdByName(t.images, name, username).None? && !HasImage(t.images, id) {
      IdByNameOfAppended(t.images, ImageRow(id, name, contentType, username, t.clock));
    }
  }

  lemma {:induction false} IdByNameOfAppended(images: seq<ImageRow>, row: ImageRow)
    requires FindImageIdByName(images, row.name, row.username).None?
    ensures FindImageIdByName(images + [row], row.name, row.username) == Some(row.id)
  {
    if |images| > 0 {
      assert (images + [row])[1..] == images[1..] + [row];
      IdByNameOfAppended(images[1..], row);
    }
  }

  /** The id found by name is the one that holds the name: with the schema's
      uniqueness of `(name, username)` it is determined. */
  lemma IdByNameIsUnique(t: Tables, name: string, username: string, k: nat)
    requires Schema(t)
    requires k < |t.images| && t.images[k].name == name && t.images[k].username == username
    ensures FindImageIdByName(t.images, name, username) == Some(t.images[k].id)
  {
    var r := FindImageIdByName(t.images, name, username).value;
    var i :| 0 <= i < |t.images| && t.images[i].id == r && t.images[i].name == name && t.images[i].username == username;
    assert ImageOwnerName(t.images[i]) == ImageOwnerName(t.images[k]);
  }

  /** Inserting the same name twice is the same as inserting it once. */
  lemma InsertImageIdempotent(t: Tables, id1: Uuid, id2: Uuid, name: string, ct1: ContentType, ct2: ContentType, username: string)
    requires Schema(t)
    requires InsertImageStep(t, id1, name, ct1, username, false).result.Ok?
    ensures var t1 := InsertImageStep(t, id1, name, ct1, username, false).after;
            InsertImageStep(t1, id2, name, ct2, username, false) == Step(t1, Ok(()))
  {
    var t1 := InsertImageStep(t, id1, name, ct1, username, false).after;
    if FindImageIdByName(t.images, name, username).None? {
      IdByNameOfAppended(t.images, ImageRow(id1, name, ct1, username, t.clock));
    }
  }

  // ---------------------------------------------------------------- rename_image

  /** A rename succeeds exactly when the image exists and no other image of
      the owner has the new name; then only that row's name changes, the
      name finds it, and the versions are untouched. */
  lemma RenameEffect(t: Tables, id: Uuid, newName: string)
    requires Schema(t)
    ensures var s := RenameStep(t, id, newName, false);
      && (s.result.Ok? <==> HasImage(t.images, id) && !NameTaken(t.images, id, newName))
      && (s.result.Ok? ==>
            && s.result.value == Some(newName)
            && s.after.versions == t.versions
            && |s.after.images| == |t.images|
            && (forall k :: 0 <= k < |t.images| && t.images[k].id != id ==> s.after.images[k] == t.images[k])
            && (forall k :: 0 <= k < |t.images| && t.images[k].id == id ==>
                  s.after.images[k] == t.images[k].(name := newName)
                  && FindImageIdByName(s.after.images, newName, t.images[k].username) == Some(id)))
      && (s.result.Err? ==> s.after == t)
  {
    var s := RenameStep(t, id, newName, false);
    if s.result.Ok? {
      RenameKeepsSchema(t, id, newName, false);
      forall k | 0 <= k < |t.images| && t.images[k].id == id
        ensures FindImageIdByName(s.after.images, newName, t.images[k].username) == Some(id)
      {
        IdByNameIsUnique(s.after, newName, t.images[k].username, k);
      }
    }
  }

  /** Renaming to the name the image already has succeeds and changes nothing. */
  lemma RenameToSameName(t: Tables, k: nat)
    requires Schema(t) && k < |t.images|
    ensures RenameStep(t, t.images[k].id, t.images[k].name, false) == Step(t, Ok(Some(t.images[k].name)))
  {
    var id, name := t.images[k].id, t.images[k].name;
    assert HasImage(t.images, id);
    assert Renamed(t.images, id, name) == t.images;
  }

  // ---------------------------------------------------------------- delete_image

  /** A delete removes the image and, through the cascade, all its versions,
      and keeps every other row and the invariant. */
  lemma DeleteEffect(t: Tables, id: Uuid)
    requires Schema(t)
    ensures var a := DeleteStep(t, id, false).after;
      && !HasImage(a.images, id)
      && (forall k :: 0 <= k < |a.versions| ==> a.versions[k].imageId != id)
      && (forall x :: x in t.images && x.id != id ==> x in a.images)
      && (forall v :: v in t.versions && v.imageId != id ==> v in a.versions)
      && (OneCurrentPerImage(t.versions) ==> OneCurrentPerImage(a.versions))
      && (TokensUnique(t.versions) ==> TokensUnique(a.versions))
  {
    var a := DeleteStep(t, id, false).after;
    assert forall k :: 0 <= k < |a.images| ==> a.images[k] in a.images;
    assert forall k :: 0 <= k < |a.versions| ==> a.versions[k] in a.versions;
    if TokensUnique(t.versions) {
      FilterKeepsDistinct(t.versions, NotVersionOf(id), VersionToken);
    }
    if OneCurrentPerImage(t.versions) {
      FilterKeepsOneCurrent(t.versions, id);
    }
  }

  lemma FilterKeepsOneCurrent(vs: seq<VersionRow>, id: Uuid)
    requires OneCurrentPerImage(vs)
    ensures OneCurrentPerImage(Filter(vs, NotVersionOf(id)))
  {
    var w := Filter(vs, NotVersionOf(id));
    forall k | 0 <= k < |w| ensures HasCurrent(w, w[k].imageId) {
      assert w[k] in vs;
      var m :| 0 <= m < |vs| && vs[m] == w[k];
      var j :| 0 <= j < |vs| && IsCurrentOf(vs[j], vs[m].imageId);
      assert vs[j] in w;
      var i :| 0 <= i < |w| && w[i] == vs[j];
      assert IsCurrentOf(w[i], w[k].imageId);
    }
    forall i, j | 0 <= i < |w| && 0 <= j < |w| && i != j && w[i].current && w[j].current
      ensures w[i].imageId != w[j].imageId
    {
      FilterIndices(vs, NotVersionOf(id), i, j);
    }
  }

  // ---------------------------------------------------------------- lookups

  /** `find_image` answers for the owner only, and only when the image has a
      current row, whose token it reports. */
  lemma FindImageSpec(t: Tables, id: Uuid, username: string)
    ensures FindImage(t, id, username).Some? <==>
      (exists i :: 0 <= i < |t.images| && t.images[i].id == id && t.images[i].username == username)
      && HasCurrent(t.versions, id)
    ensures FindImage(t, id, username).Some? ==>
      var info := FindImage(t, id, username).value;
      && info.id == id && info.username == username
      && exists k :: 0 <= k < |t.versions| && IsCurrentOf(t.versions[k], id) && t.versions[k].version == info.version
  {
    if FindImage(t, id, username).Some? {
      var v := CurrentVersion(t.versions, id).value;
      var k := IndexOf(t.versions, v);
    }
  }

  /** `find_all_images` lists exactly the owner's images (which follows
      from its definition), and each entry is what
      `find_image_with_version_info` returns for that id: the two queries
      agree on the name, the version count and the current row's facts. */
  lemma FindAllImagesSpec(t: Tables, username: string)
    requires Schema(t)
    ensures forall x :: x in FindAllImages(t, username) <==>
      exists i :: 0 <= i < |t.images| && t.images[i].username == username && x == ImageOf(t, t.images[i])
    ensures forall i :: 0 <= i < |t.images| && t.images[i].username == username ==>
      FindImageWithVersionInfo(t, t.images[i].id, username) == Some(ImageOf(t, t.images[i]))
  {
    ImagesOfMembers(t, t.images, username);
    forall i | 0 <= i < |t.images| && t.images[i].username == username
      ensures FindImageWithVersionInfo(t, t.images[i].id, username) == Some(ImageOf(t, t.images[i]))
    {
      var row := FindImageRow(t.images, t.images[i].id, username).value;
      var j := IndexOf(t.images, row);
      assert ImageId(t.images[j]) == ImageId(t.images[i]);
    }
  }

  lemma {:induction false} ImagesOfMembers(t: Tables, rows: seq<ImageRow>, username: string)
    ensures forall x :: x in ImagesOf(t, rows, username) <==>
      exists i :: 0 <= i < |rows| && rows[i].username == username && x == ImageOf(t, rows[i])
  {
    if |rows| > 0 {
      ImagesOfMembers(t, rows[1..], username);
      assert forall i :: 1 <= i < |rows| ==> rows[i] == rows[1..][i - 1];
    }
  }
}
