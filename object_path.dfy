/** Object-key derivation. The current repository keys a blob by
    `base/<image id>.<extension>`, the extension taken from the image's name
    with the rules of Rust's `Path::file_name` and `Path::extension`; the
    legacy repository keys it by `base/<image name>`. */
module ObjectPath {
  import opened Values
  import opened Text
  import ClientNames

  /** The last piece that names something, skipping the empty pieces of
      repeated or trailing slashes and the "." pieces (`Path::components`
      drops both). */
  function LastNamed(parts: seq<string>): (r: Option<string>)
    ensures r.Some? ==> r.value in parts && r.value != "" && r.value != "."
    ensures r.None? <==> forall i :: 0 <= i < |parts| ==> parts[i] == "" || parts[i] == "."
  {
    if |parts| == 0 then None
    else if Last(parts) == "" || Last(parts) == "." then LastNamed(parts[..|parts| - 1])
    else Some(Last(parts))
  }

  /** `Path::new(path).file_name()`: the final component, unless it is ".."
      or there is none (the path is "", "/", "." and the like). */
  function FileName(path: string): (r: Option<string>)
    ensures r.Some? ==> '/' !in r.value && r.value !in {"", ".", ".."}
  {
    match LastNamed(Split(path, '/'))
    case None => None
    case Some(seg) => if seg == ".." then None else Some(seg)
  }

  /** `Path::new(path).extension()`: the text after the last dot of the file
      name, unless the name has no dot or its only dot leads it. */
  function PathExtension(path: string): (r: Option<string>)
    ensures r.Some? ==> '.' !in r.value && '/' !in r.value
    ensures r.Some? ==> FileName(path).Some? && LastIndexOf(FileName(path).value, '.') > 0
  {
    match FileName(path)
    case None => None
    case Some(f) =>
      var k := LastIndexOf(f, '.');
      assert '/' !in f[k + 1..] by { assert forall i :: k + 1 <= i < |f| ==> f[i] in f; }
      if k <= 0 then None else Some(f[k + 1..])
  }

  /** The extension that goes into the object key: `unwrap_or("jpg")`. */
  function KeyExtension(name: string): (ext: string)
    ensures '.' !in ext && '/' !in ext
    ensures PathExtension(name).None? ==> ext == "jpg"
  {
    match PathExtension(name)
    case Some(e) => e
    case None => "jpg"
  }

  /** `get_object_path` of api/repos: `base/<id>.<ext>`. */
  function GetObjectPath(basePath: string, imageId: Uuid, imageName: string): (key: string)
  {
    basePath + "/" + imageId + "." + KeyExtension(imageName)
  }

  /** `get_object_path` of the legacy repository: `base/<name>`. */
  function LegacyObjectPath(basePath: string, imageName: string): string
  {
    basePath + "/" + imageName
  }

  /** Splitting after a separator appends the pieces of the tail. */
  lemma {:induction false} SplitAfterSeparator(a: string, c: char, b: string)
    requires c !in b
    ensures Split(a + [c] + b, c) == Split(a, c) + [b]
  {
    var s := a + [c] + b;
    if |b| == 0 {
      assert s[..|s| - 1] == a;
    } else {
      var b' := b[..|b| - 1];
      assert s[..|s| - 1] == a + [c] + b';
      assert c !in b' by { assert forall i :: 0 <= i < |b'| ==> b'[i] == b[i]; }
      SplitAfterSeparator(a, c, b');
      assert b' + [b[|b| - 1]] == b;
    }
  }

  /** For a plain name (no slash, not "..") the extension in the key is the
      text after the last dot, unless there is no dot or the only dot leads
      the name: then it is "jpg". */
  lemma KeyExtensionOfPlainName(name: string)
    requires '/' !in name && name != ".."
    ensures var k := LastIndexOf(name, '.');
            KeyExtension(name) == if k > 0 then name[k + 1..] else "jpg"
  {
    SplitSingle(name, '/');
    assert LastNamed([name]) == if name in {"", "."} then None else Some(name) by {
      assert [name][..0] == [];
    }
  }

  lemma {:induction false} SplitSingle(s: string, c: char)
    requires c !in s
    ensures Split(s, c) == [s]
  {
    if |s| > 0 {
      var t := s[..|s| - 1];
      assert c !in t by { assert forall i :: 0 <= i < |t| ==> t[i] == s[i]; }
      SplitSingle(t, c);
      assert t + [s[|s| - 1]] == s;
    }
  }

  /** The key depends on the name only through its extension: a rename keeps
      the blob key exactly when the new name yields the same extension. */
  lemma RenameKeepsKeyIffSameExtension(basePath: string, imageId: Uuid, oldName: string, newName: string)
    ensures GetObjectPath(basePath, imageId, oldName) == GetObjectPath(basePath, imageId, newName)
            <==> KeyExtension(oldName) == KeyExtension(newName)
  {
    var p := basePath + "/" + imageId + ".";
    if GetObjectPath(basePath, imageId, oldName) == GetObjectPath(basePath, imageId, newName) {
      assert KeyExtension(oldName) == GetObjectPath(basePath, imageId, oldName)[|p|..];
    }
  }

  /** Keys of one user's images are distinct for distinct image ids (UUIDs
      hold no dot), so the key map never conflates two images. */
  lemma KeysSeparateImages(basePath: string, id1: Uuid, name1: string, id2: Uuid, name2: string)
    requires '.' !in id1 && '.' !in id2
    ensures GetObjectPath(basePath, id1, name1) == GetObjectPath(basePath, id2, name2)
            <==> id1 == id2 && KeyExtension(name1) == KeyExtension(name2)
  {
    var e1, e2 := KeyExtension(name1), KeyExtension(name2);
    var k1, k2 := GetObjectPath(basePath, id1, name1), GetObjectPath(basePath, id2, name2);
    var p := basePath + "/";
    if k1 == k2 {
      assert k1 == p + (id1 + "." + e1) && k2 == p + (id2 + "." + e2);
      assert id1 + "." + e1 == k1[|p|..];
      assert id2 + "." + e2 == k2[|p|..];
      DotSplitUnique(id1, e1, id2, e2);
    }
  }

  /** `a + "." + b` determines `a` and `b` when `a` holds no dot. */
  lemma DotSplitUnique(a1: string, b1: string, a2: string, b2: string)
    requires '.' !in a1 && '.' !in a2
    requires a1 + "." + b1 == a2 + "." + b2
    ensures a1 == a2 && b1 == b2
  {
    var s := a1 + "." + b1;
    assert s[|a1|] == '.';
    assert |a2| < |s| && s[|a2|] == '.';
    assert a1 == s[..|a1|] && a2 == s[..|a2|];
    assert b1 == s[|a1| + 1..] && b2 == s[|a2| + 1..];
  }

  /** The client and the server disagree on a name whose only dot leads it:
      the client shows "png" for ".png", the key uses "jpg". */
  lemma LeadingDotDisagreement()
    ensures ClientNames.GetFileExtension(".png") == "png"
    ensures KeyExtension(".png") == "jpg"
  {
    KeyExtensionOfPlainName(".png");
    assert LastIndexOf(".png", '.') == 0;
  }

  /** The legacy listing join recovers a plain name from its key: the last
      component of `base/<name>` is the name. */
  lemma LegacyKeyFileName(basePath: string, name: string)
    requires '/' !in name && name !in {"", ".", ".."}
    ensures FileName(LegacyObjectPath(basePath, name)) == Some(name)
  {
    SplitAfterSeparator(basePath, '/', name);
    assert LegacyObjectPath(basePath, name) == basePath + ['/'] + name;
  }

  /** A name holding a slash is never recovered from its legacy key: only
      its last component is. */
  lemma LegacyKeyLosesNestedName(basePath: string, dir: string, name: string)
    requires '/' !in name && name !in {"", ".", ".."}
    ensures FileName(LegacyObjectPath(basePath, dir + "/" + name)) == Some(name)
  {
    var a := basePath + "/" + dir;
    SplitAfterSeparator(a, '/', name);
    assert LegacyObjectPath(basePath, dir + "/" + name) == a + ['/'] + name;
  }
}
