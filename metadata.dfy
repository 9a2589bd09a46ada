/** The metadata layer (api/db/src/images.rs): the `image` and `image_version`
    tables as state, every SQL statement as a function from the tables before
    to the tables after, and the `Database` class whose methods run those
    statements in the source's order. The database clock stands for the
    server-assigned `ts` and `created_at` columns; a failing statement is
    chosen by a `Fault` parameter. */
module Metadata {
  import opened Values
  import opened Seqs

  datatype ContentType = Jpeg | Png | Gif | Webp | Bmp | Unknown

  /** A row of `image`. */
  datatype ImageRow = ImageRow(id: Uuid, name: string, contentType: ContentType, username: string, createdAt: nat)

  /** A row of `image_version`. */
  datatype VersionRow = VersionRow(imageId: Uuid, version: Token, ts: nat, current: bool,
                                   width: int, height: int, size: int)

  datatype Tables = Tables(images: seq<ImageRow>, versions: seq<VersionRow>, clock: nat)

  /** The tables after a statement, and what the statement returned. */
  datatype Step<T> = Step(after: Tables, result: Result<T>)

  /** What `find_image` returns. */
  datatype ImageInfo = ImageInfo(id: Uuid, name: string, username: string, contentType: ContentType, version: Token)

  /** The current version's columns and its place in the lineage. */
  datatype CurrentFacts = CurrentFacts(lastModified: nat, version: Token, width: int, height: int, size: int,
                                       versionIndex: nat, latestVersion: bool, initialVersion: bool)

  /** What `find_image_with_version_info` and `find_all_images` return per image. */
  datatype Image = Image(id: Uuid, name: string, contentType: ContentType, createdAt: nat,
                         versionCount: nat, current: Option<CurrentFacts>)

  // ---------------------------------------------------------------- keys

  function ImageId(x: ImageRow): Uuid { x.id }
  function ImageOwnerName(x: ImageRow): (string, string) { (x.name, x.username) }
  function VersionTs(v: VersionRow): nat { v.ts }
  function VersionToken(v: VersionRow): Token { v.version }

  // ---------------------------------------------------------------- schema

  predicate HasImage(images: seq<ImageRow>, id: Uuid)
  {
    exists i :: 0 <= i < |images| && images[i].id == id
  }

  /** What the schema enforces: `image.id` is a key, `(name, username)` is
      unique (the `ON CONFLICT` target), every version belongs to an image, and
      `ts` is assigned by the database from a strictly increasing clock. */
  predicate Schema(t: Tables)
  {
    && DistinctBy(t.images, ImageId)
    && DistinctBy(t.images, ImageOwnerName)
    && (forall k :: 0 <= k < |t.versions| ==> HasImage(t.images, t.versions[k].imageId))
    && (forall k :: 0 <= k < |t.versions| ==> t.versions[k].ts < t.clock)
    && DistinctBy(t.versions, VersionTs)
  }

  // ---------------------------------------------------------------- the current pointer

  predicate IsCurrentOf(v: VersionRow, id: Uuid)
  {
    v.imageId == id && v.current
  }

  predicate HasCurrent(vs: seq<VersionRow>, id: Uuid)
  {
    exists k :: 0 <= k < |vs| && IsCurrentOf(vs[k], id)
  }

  /** No image has two current rows. */
  predicate AtMostOneCurrent(vs: seq<VersionRow>)
  {
    forall i, j :: 0 <= i < |vs| && 0 <= j < |vs| && i != j && vs[i].current && vs[j].current ==>
      vs[i].imageId != vs[j].imageId
  }

  /** The central invariant: every image with a version has exactly one
      current row. */
  predicate OneCurrentPerImage(vs: seq<VersionRow>)
  {
    && AtMostOneCurrent(vs)
    && (forall k :: 0 <= k < |vs| ==> HasCurrent(vs, vs[k].imageId))
  }

  /** Version tokens are unique across the whole table. */
  predicate TokensUnique(vs: seq<VersionRow>)
  {
    DistinctBy(vs, VersionToken)
  }

  // ---------------------------------------------------------------- queries

  /** `get_current_version`: the (first) current row of the image. */
  function CurrentVersion(vs: seq<VersionRow>, id: Uuid): (r: Option<VersionRow>)
    ensures r.Some? ==> r.value in vs && IsCurrentOf(r.value, id)
    ensures r.None? <==> !HasCurrent(vs, id)
  {
    if |vs| == 0 then None
    else if IsCurrentOf(vs[0], id) then Some(vs[0])
    else
      var r := CurrentVersion(vs[1..], id);
      assert HasCurrent(vs, id) ==> HasCurrent(vs[1..], id) by {
        if HasCurrent(vs, id) {
          var k :| 0 <= k < |vs| && IsCurrentOf(vs[k], id);
          assert k > 0 && vs[1..][k - 1] == vs[k];
        }
      }
      assert HasCurrent(vs[1..], id) ==> HasCurrent(vs, id) by {
        if HasCurrent(vs[1..], id) {
          var k :| 0 <= k < |vs| - 1 && IsCurrentOf(vs[1..][k], id);
          assert vs[k + 1] == vs[1..][k];
        }
      }
      r
  }

  /** The (first) row of `image` with that id owned by that user. */
  function FindImageRow(images: seq<ImageRow>, id: Uuid, username: string): (r: Option<ImageRow>)
    ensures r.Some? ==> r.value in images && r.value.id == id && r.value.username == username
    ensures r.None? ==> forall i :: 0 <= i < |images| ==> !(images[i].id == id && images[i].username == username)
  {
    if |images| == 0 then None
    else if images[0].id == id && images[0].username == username then Some(images[0])
    else
      var r := FindImageRow(images[1..], id, username);
      assert forall i :: 1 <= i < |images| ==> images[i] == images[1..][i - 1];
      r
  }

  /** `find_image_id_by_name`. */
  function FindImageIdByName(images: seq<ImageRow>, name: string, username: string): (r: Option<Uuid>)
    ensures r.Some? ==> exists i :: 0 <= i < |images| && images[i].id == r.value
                                   && images[i].name == name && images[i].username == username
    ensures r.None? ==> forall i :: 0 <= i < |images| ==> !(images[i].name == name && images[i].username == username)
  {
    if |images| == 0 then None
    else if images[0].name == name && images[0].username == username then Some(images[0].id)
    else
      var r := FindImageIdByName(images[1..], name, username);
      assert forall i :: 1 <= i < |images| ==> images[i] == images[1..][i - 1];
      r
  }

  /** `find_image`: the image joined to its current row, for its owner only. */
  function FindImage(t: Tables, id: Uuid, username: string): Option<ImageInfo>
  {
    match FindImageRow(t.images, id, username)
    case None => None
    case Some(row) =>
      match CurrentVersion(t.versions, id)
      case None => None
      case Some(v) => Some(ImageInfo(row.id, row.name, row.username, row.contentType, v.version))
  }

  // ---------------------------------------------------------------- lineage ranks

  /** How many rows satisfy `p`. */
  function CountIf(vs: seq<VersionRow>, p: VersionRow -> bool): nat
  {
    if |vs| == 0 then 0
    else CountIf(vs[..|vs| - 1], p) + (if p(vs[|vs| - 1]) then 1 else 0)
  }

  function OfImage(id: Uuid): VersionRow -> bool
  {
    (v: VersionRow) => v.imageId == id
  }

  function OlderThan(id: Uuid, ts: nat): VersionRow -> bool
  {
    (v: VersionRow) => v.imageId == id && v.ts < ts
  }

  function NewerThan(id: Uuid, ts: nat): VersionRow -> bool
  {
    (v: VersionRow) => v.imageId == id && v.ts > ts
  }

  function StampedAt(id: Uuid, ts: nat): VersionRow -> bool
  {
    (v: VersionRow) => v.imageId == id && v.ts == ts
  }

  /** `COUNT(1)` over the image's versions. */
  function VersionCount(vs: seq<VersionRow>, id: Uuid): nat
  {
    CountIf(vs, OfImage(id))
  }

  /** `ROW_NUMBER() OVER (ORDER BY ts)` of a row: one more than the number of
      the image's rows with a smaller `ts` (timestamps are distinct). */
  function VersionIndex(vs: seq<VersionRow>, v: VersionRow): nat
  {
    CountIf(vs, OlderThan(v.imageId, v.ts)) + 1
  }

  function Facts(vs: seq<VersionRow>, v: VersionRow): CurrentFacts
  {
    var idx, count := VersionIndex(vs, v), VersionCount(vs, v.imageId);
    CurrentFacts(v.ts, v.version, v.width, v.height, v.size, idx, idx == count, idx == 1)
  }

  function ImageOf(t: Tables, row: ImageRow): Image
  {
    var cur := CurrentVersion(t.versions, row.id);
    Image(row.id, row.name, row.contentType, row.createdAt, VersionCount(t.versions, row.id),
          if cur.Some? then Some(Facts(t.versions, cur.value)) else None)
  }

  /** `find_image_with_version_info`. */
  function FindImageWithVersionInfo(t: Tables, id: Uuid, username: string): Option<Image>
  {
    match FindImageRow(t.images, id, username)
    case None => None
    case Some(row) => Some(ImageOf(t, row))
  }

  function ImagesOf(t: Tables, rows: seq<ImageRow>, username: string): (r: seq<Image>)
    ensures |r| <= |rows|
  {
    if |rows| == 0 then []
    else if rows[0].username == username then [ImageOf(t, rows[0])] + ImagesOf(t, rows[1..], username)
    else ImagesOf(t, rows[1..], username)
  }

  /** `find_all_images`: one entry per image of the user, in table order. */
  function FindAllImages(t: Tables, username: string): seq<Image>
  {
    ImagesOf(t, t.images, username)
  }

  // ---------------------------------------------------------------- statements

  /** `UPDATE image_version SET current = FALSE WHERE image_id = $1 AND version <> $2`. */
  function Demote(vs: seq<VersionRow>, id: Uuid, keep: Token): (r: seq<VersionRow>)
    ensures |r| == |vs|
    ensures forall k :: 0 <= k < |vs| ==>
      r[k] == if vs[k].imageId == id && vs[k].version != keep then vs[k].(current := false) else vs[k]
  {
    seq(|vs|, k requires 0 <= k < |vs| =>
      if vs[k].imageId == id && vs[k].version != keep then vs[k].(current := false) else vs[k])
  }

  /** `UPDATE image_version SET current = TRUE WHERE version = $t`: note that
      the statement does not restrict the image. */
  function Promote(vs: seq<VersionRow>, token: Token): (r: seq<VersionRow>)
    ensures |r| == |vs|
    ensures forall k :: 0 <= k < |vs| ==>
      r[k] == if vs[k].version == token then vs[k].(current := true) else vs[k]
  {
    seq(|vs|, k requires 0 <= k < |vs| =>
      if vs[k].version == token then vs[k].(current := true) else vs[k])
  }

  datatype Direction = Back | Forward

  /** The rows the subquery of revert (Back) or restore (Forward) ranges over:
      the image's rows older (newer) than the current one and with another token. */
  predicate Candidate(v: VersionRow, id: Uuid, cur: VersionRow, dir: Direction)
  {
    && v.imageId == id
    && v.version != cur.version
    && (if dir == Back then v.ts < cur.ts else v.ts > cur.ts)
  }

  /** `ORDER BY ts DESC LIMIT 1` (Back) or `ORDER BY ts ASC LIMIT 1` (Forward)
      over the candidates. */
  function Neighbour(vs: seq<VersionRow>, id: Uuid, cur: VersionRow, dir: Direction): (r: Option<VersionRow>)
    ensures r.Some? ==> r.value in vs && Candidate(r.value, id, cur, dir)
    ensures r.Some? ==> forall k :: 0 <= k < |vs| && Candidate(vs[k], id, cur, dir) ==>
      if dir == Back then vs[k].ts <= r.value.ts else vs[k].ts >= r.value.ts
    ensures r.None? <==> forall k :: 0 <= k < |vs| ==> !Candidate(vs[k], id, cur, dir)
  {
    if |vs| == 0 then None
    else
      var rest := Neighbour(vs[1..], id, cur, dir);
      assert forall k :: 1 <= k < |vs| ==> vs[k] == vs[1..][k - 1];
      if !Candidate(vs[0], id, cur, dir) then rest
      else if rest.Some? && (if dir == Back then rest.value.ts >= vs[0].ts else rest.value.ts <= vs[0].ts) then rest
      else Some(vs[0])
  }

  function NewVersionRow(imageId: Uuid, version: Token, dimensions: (u32, u32), size: u64, ts: nat): VersionRow
  {
    VersionRow(imageId, version, ts, true, AsI32(dimensions.0), AsI32(dimensions.1), AsI64(size))
  }

  /** `insert_image`: INSERT ... ON CONFLICT (name, username) DO NOTHING. A
      clash on the primary key is an error. */
  function InsertImageStep(t: Tables, id: Uuid, name: string, contentType: ContentType,
                           username: string, fails: bool): Step<()>
  {
    if fails then Step(t, Err(DbError))
    else if FindImageIdByName(t.images, name, username).Some? then Step(t, Ok(()))
    else if HasImage(t.images, id) then Step(t, Err(DbError))
    else Step(t.(images := t.images + [ImageRow(id, name, contentType, username, t.clock)],
                 clock := t.clock + 1), Ok(()))
  }

  /** `unset_current_version_flags`: nothing at all without a token. */
  function UnsetStep(t: Tables, imageId: Uuid, version: Option<Token>, fails: bool): Step<()>
  {
    match version
    case None => Step(t, Ok(()))
    case Some(token) =>
      if fails then Step(t, Err(DbError))
      else Step(t.(versions := Demote(t.versions, imageId, token)), Ok(()))
  }

  /** `insert_image_version`: statement 1 inserts the row as current (the
      foreign key to `image` must hold), statement 2 demotes the siblings. The
      INSERT's RETURNING always yields the token on success. */
  function InsertVersionStep(t: Tables, imageId: Uuid, version: Token, dimensions: (u32, u32),
                             size: u64, fault: Fault): Step<()>
  {
    if FailsAt(fault, 1) || !HasImage(t.images, imageId) then Step(t, Err(DbError))
    else
      var inserted := t.(versions := t.versions + [NewVersionRow(imageId, version, dimensions, size, t.clock)],
                         clock := t.clock + 1);
      UnsetStep(inserted, imageId, Some(version), FailsAt(fault, 2))
  }

  /** `revert_image_version` (Back) and `restore_image_version` (Forward):
      statement 1 reads the current row, statement 2 promotes the neighbour
      (its error is swallowed into `None`), statement 3 demotes the rest. */
  function MoveStep(t: Tables, imageId: Uuid, dir: Direction, fault: Fault): Step<Option<Token>>
  {
    if FailsAt(fault, 1) then Step(t, Err(DbError))
    else match CurrentVersion(t.versions, imageId)
      case None => Step(t, Ok(None))
      case Some(prior) =>
        if FailsAt(fault, 2) then Step(t, Ok(None))
        else match Neighbour(t.versions, imageId, prior, dir)
          case None => Step(t, Ok(None))
          case Some(target) =>
            var promoted := t.(versions := Promote(t.versions, target.version));
            var u := UnsetStep(promoted, imageId, Some(target.version), FailsAt(fault, 3));
            Step(u.after, if u.result.Ok? then Ok(Some(target.version)) else Err(u.result.error))
  }

  /** Another image of the same owner already has that name. */
  predicate NameTaken(images: seq<ImageRow>, id: Uuid, newName: string)
  {
    exists i, j :: 0 <= i < |images| && 0 <= j < |images| && images[i].id == id && images[j].id != id
                   && images[j].name == newName && images[j].username == images[i].username
  }

  function Renamed(images: seq<ImageRow>, id: Uuid, newName: string): (r: seq<ImageRow>)
    ensures |r| == |images|
    ensures forall k :: 0 <= k < |images| ==>
      r[k] == if images[k].id == id then images[k].(name := newName) else images[k]
  {
    seq(|images|, k requires 0 <= k < |images| =>
      if images[k].id == id then images[k].(name := newName) else images[k])
  }

  /** `rename_image`: UPDATE ... RETURNING name with `fetch_one`, so no row
      is an error; so is a clash with the `(name, username)` constraint. */
  function RenameStep(t: Tables, id: Uuid, newName: string, fails: bool): Step<Option<string>>
  {
    if fails || !HasImage(t.images, id) || NameTaken(t.images, id, newName) then Step(t, Err(DbError))
    else Step(t.(images := Renamed(t.images, id, newName)), Ok(Some(newName)))
  }

  function NotImage(id: Uuid): ImageRow -> bool { (x: ImageRow) => x.id != id }
  function NotVersionOf(id: Uuid): VersionRow -> bool { (v: VersionRow) => v.imageId != id }

  /** `delete_image`: the image row goes, and its versions with it (the
      foreign key cascades). */
  function DeleteStep(t: Tables, id: Uuid, fails: bool): Step<()>
  {
    if fails then Step(t, Err(DbError))
    else Step(t.(images := Filter(t.images, NotImage(id)), versions := Filter(t.versions, NotVersionOf(id))), Ok(()))
  }

  // ---------------------------------------------------------------- schema preservation

  lemma InsertImageKeepsSchema(t: Tables, id: Uuid, name: string, contentType: ContentType, username: string, fails: bool)
    requires Schema(t)
    ensures Schema(InsertImageStep(t, id, name, contentType, username, fails).after)
  {
    var s := InsertImageStep(t, id, name, contentType, username, fails);
    if s.after != t {
      var imgs := s.after.images;
      assert forall k :: 0 <= k < |t.images| ==> imgs[k] == t.images[k];
      forall k | 0 <= k < |t.versions| ensures HasImage(imgs, t.versions[k].imageId) {
        var i :| 0 <= i < |t.images| && t.images[i].id == t.versions[k].imageId;
        assert imgs[i] == t.images[i];
      }
    }
  }

  lemma InsertVersionKeepsSchema(t: Tables, imageId: Uuid, version: Token, dimensions: (u32, u32), size: u64, fault: Fault)
    requires Schema(t)
    ensures Schema(InsertVersionStep(t, imageId, version, dimensions, size, fault).after)
  {
    if !(FailsAt(fault, 1) || !HasImage(t.images, imageId)) {
      var inserted := t.(versions := t.versions + [NewVersionRow(imageId, version, dimensions, size, t.clock)],
                         clock := t.clock + 1);
      assert Schema(inserted);
      DemoteKeepsSchema(inserted, imageId, version);
    }
  }

  lemma DemoteKeepsSchema(t: Tables, id: Uuid, keep: Token)
    requires Schema(t)
    ensures Schema(t.(versions := Demote(t.versions, id, keep)))
  {
    var vs := Demote(t.versions, id, keep);
    assert forall k :: 0 <= k < |vs| ==> vs[k].ts == t.versions[k].ts && vs[k].imageId == t.versions[k].imageId;
  }

  lemma PromoteKeepsSchema(t: Tables, token: Token)
    requires Schema(t)
    ensures Schema(t.(versions := Promote(t.versions, token)))
  {
    var vs := Promote(t.versions, token);
    assert forall k :: 0 <= k < |vs| ==> vs[k].ts == t.versions[k].ts && vs[k].imageId == t.versions[k].imageId;
  }

  /** When the new name is free, no other image of the owner carries it. */
  lemma NameFreeSeparates(images: seq<ImageRow>, id: Uuid, newName: string, i: nat, j: nat)
    requires !NameTaken(images, id, newName)
    requires i < |images| && j < |images| && images[i].id == id && images[j].id != id
    ensures images[j].name != newName || images[j].username != images[i].username
  {
  }

  lemma RenameKeepsSchema(t: Tables, id: Uuid, newName: string, fails: bool)
    requires Schema(t)
    ensures Schema(RenameStep(t, id, newName, fails).after)
  {
    var s := RenameStep(t, id, newName, fails);
    if s.result.Ok? {
      var imgs := s.after.images;
      forall i, j | 0 <= i < |imgs| && 0 <= j < |imgs| && i != j
        ensures ImageOwnerName(imgs[i]) != ImageOwnerName(imgs[j])
      {
        if imgs[i].id == id && imgs[j].id != id {
          NameFreeSeparates(t.images, id, newName, i, j);
        } else if imgs[j].id == id && imgs[i].id != id {
          NameFreeSeparates(t.images, id, newName, j, i);
        }
      }
      forall k | 0 <= k < |t.versions| ensures HasImage(imgs, t.versions[k].imageId) {
        var i :| 0 <= i < |t.images| && t.images[i].id == t.versions[k].imageId;
        assert imgs[i].id == t.images[i].id;
      }
    }
  }

  lemma DeleteKeepsSchema(t: Tables, id: Uuid, fails: bool)
    requires Schema(t)
    ensures Schema(DeleteStep(t, id, fails).after)
  {
    if !fails {
      var imgs, vs := Filter(t.images, NotImage(id)), Filter(t.versions, NotVersionOf(id));
      FilterKeepsDistinct(t.images, NotImage(id), ImageId);
      FilterKeepsDistinct(t.images, NotImage(id), ImageOwnerName);
      FilterKeepsDistinct(t.versions, NotVersionOf(id), VersionTs);
      forall k | 0 <= k < |vs| ensures HasImage(imgs, vs[k].imageId) && vs[k].ts < t.clock {
        assert vs[k] in t.versions;
        var m :| 0 <= m < |t.versions| && t.versions[m] == vs[k];
        var i :| 0 <= i < |t.images| && t.images[i].id == vs[k].imageId;
        assert t.images[i] in imgs;
      }
    }
  }

  lemma MoveKeepsSchema(t: Tables, imageId: Uuid, dir: Direction, fault: Fault)
    requires Schema(t)
    ensures Schema(MoveStep(t, imageId, dir, fault).after)
  {
    if !FailsAt(fault, 1) && !FailsAt(fault, 2) {
      var prior := CurrentVersion(t.versions, imageId);
      if prior.Some? {
        var target := Neighbour(t.versions, imageId, prior.value, dir);
        if target.Some? {
          var promoted := t.(versions := Promote(t.versions, target.value.version));
          PromoteKeepsSchema(t, target.value.version);
          if !FailsAt(fault, 3) {
            DemoteKeepsSchema(promoted, imageId, target.value.version);
          }
        }
      }
    }
  }

  // ---------------------------------------------------------------- the database

  /** The two tables and the server clock; each method runs the statements of
      one function of images.rs, in its order, and ends in the state its
      `*Step` function describes. */
  class Database {
    var images: seq<ImageRow>
    var versions: seq<VersionRow>
    var clock: nat

    function State(): Tables
      reads this
    {
      Tables(images, versions, clock)
    }

    ghost predicate Valid()
      reads this
    {
      Schema(State())
    }

    constructor ()
      ensures Valid() && State() == Tables([], [], 0)
    {
      images, versions, clock := [], [], 0;
    }

    /** `insert_image`. */
    method InsertImage(id: Uuid, name: string, contentType: ContentType, username: string, fails: bool)
      returns (r: Result<()>)
      requires Valid()
      modifies this
      ensures Valid()
      ensures var s := InsertImageStep(old(State()), id, name, contentType, username, fails);
              State() == s.after && r == s.result
    {
      InsertImageKeepsSchema(State(), id, name, contentType, username, fails);
      if fails {
        return Err(DbError);
      }
      if FindImageIdByName(images, name, username).Some? {
        return Ok(());   // ON CONFLICT (name, username) DO NOTHING
      }
      if HasImage(images, id) {
        return Err(DbError);
      }
      images := images + [ImageRow(id, name, contentType, username, clock)];
      clock := clock + 1;
      r := Ok(());
    }

    /** `unset_current_version_flags`. */
    method UnsetCurrentVersionFlags(imageId: Uuid, version: Option<Token>, fails: bool) returns (r: Result<()>)
      requires Valid()
      modifies this
      ensures Valid()
      ensures var s := UnsetStep(old(State()), imageId, version, fails);
              State() == s.after && r == s.result
    {
      if version.Some? {
        if fails {
          return Err(DbError);
        }
        DemoteKeepsSchema(State(), imageId, version.value);
        versions := Demote(versions, imageId, version.value);
      }
      r := Ok(());
    }

    /** `insert_image_version`. */
    method InsertImageVersion(imageId: Uuid, version: Token, dimensions: (u32, u32), size: u64, fault: Fault)
      returns (r: Result<()>)
      requires Valid()
      modifies this
      ensures Valid()
      ensures var s := InsertVersionStep(old(State()), imageId, version, dimensions, size, fault);
              State() == s.after && r == s.result
    {
      if FailsAt(fault, 1) || !HasImage(images, imageId) {
        return Err(DbError);
      }
      versions := versions + [NewVersionRow(imageId, version, dimensions, size, clock)];
      clock := clock + 1;
      var versionOption := Some(version);   // RETURNING version
      r := UnsetCurrentVersionFlags(imageId, versionOption, FailsAt(fault, 2));
    }

    /** The body shared by `revert_image_version` and `restore_image_version`. */
    method MoveCurrent(imageId: Uuid, dir: Direction, fault: Fault) returns (r: Result<Option<Token>>)
      requires Valid()
      modifies this
      ensures Valid()
      ensures var s := MoveStep(old(State()), imageId, dir, fault);
              State() == s.after && r == s.result
    {
      if FailsAt(fault, 1) {
        return Err(DbError);
      }
      var prior := CurrentVersion(versions, imageId);
      if prior.None? {
        return Ok(None);
      }
      if FailsAt(fault, 2) {
        return Ok(None);   // `if let Ok(version) = ...` drops the UPDATE's error
      }
      var target := Neighbour(versions, imageId, prior.value, dir);
      if target.None? {
        return Ok(None);   // no row updated; unsetting with `None` does nothing
      }
      var token := target.value.version;
      PromoteKeepsSchema(State(), token);
      versions := Promote(versions, token);
      var u := UnsetCurrentVersionFlags(imageId, Some(token), FailsAt(fault, 3));
      if u.Err? {
        return Err(u.error);
      }
      r := Ok(Some(token));
    }

    /** `revert_image_version`. */
    method RevertImageVersion(imageId: Uuid, fault: Fault) returns (r: Result<Option<Token>>)
      requires Valid()
      modifies this
      ensures Valid()
      ensures var s := MoveStep(old(State()), imageId, Back, fault);
              State() == s.after && r == s.result
    {
      r := MoveCurrent(imageId, Back, fault);
    }

    /** `restore_image_version`. */
    method RestoreImageVersion(imageId: Uuid, fault: Fault) returns (r: Result<Option<Token>>)
      requires Valid()
      modifies this
      ensures Valid()
      ensures var s := MoveStep(old(State()), imageId, Forward, fault);
              State() == s.after && r == s.result
    {
      r := MoveCurrent(imageId, Forward, fault);
    }

    /** `rename_image`. */
    method RenameImage(imageId: Uuid, newName: string, fails: bool) returns (r: Result<Option<string>>)
      requires Valid()
      modifies this
      ensures Valid()
      ensures var s := RenameStep(old(State()), imageId, newName, fails);
              State() == s.after && r == s.result
    {
      RenameKeepsSchema(State(), imageId, newName, fails);
      if fails || !HasImage(images, imageId) || NameTaken(images, imageId, newName) {
        return Err(DbError);
      }
      images := Renamed(images, imageId, newName);
      r := Ok(Some(newName));
    }

    /** `delete_image`. */
    method DeleteImage(imageId: Uuid, fails: bool) returns (r: Result<()>)
      requires Valid()
      modifies this
      ensures Valid()
      ensures var s := DeleteStep(old(State()), imageId, fails);
              State() == s.after && r == s.result
    {
      DeleteKeepsSchema(State(), imageId, fails);
      if fails {
        return Err(DbError);
      }
      images := Filter(images, NotImage(imageId));
      versions := Filter(versions, NotVersionOf(imageId));
      r := Ok(());
    }
  }
}
