/** The web client's file-name and content-type display helpers
    (client/src/utils/app.ts). Strings are sequences of `char`; JavaScript's
    UTF-16 code units are taken to be these characters. */
module ClientNames {
  import opened Text

  /** `getFileExtension`: the last piece of `filename.split(".")`, or "jpg" when
      the name holds no dot. */
  function GetFileExtension(filename: string): (ext: string)
    ensures '.' !in ext
    ensures '.' in filename ==> ext == filename[LastIndexOf(filename, '.') + 1..]
    ensures '.' !in filename ==> ext == "jpg"
  {
    if '.' in filename then
      SplitLast(filename, '.');
      Last(Split(filename, '.'))
    else "jpg"
  }

  /** `getFileStem`: the text before the last dot, or the whole name. */
  function GetFileStem(filename: string): (stem: string)
    ensures '.' !in filename ==> stem == filename
    ensures '.' in filename ==> |stem| < |filename| && filename[..|stem|] == stem && filename[|stem|] == '.'
  {
    if '.' !in filename then filename
    else filename[..LastIndexOf(filename, '.')]
  }

  /** For a name with a dot, stem, dot and extension give the name back. */
  lemma StemExtensionRoundTrip(filename: string)
    requires '.' in filename
    ensures GetFileStem(filename) + "." + GetFileExtension(filename) == filename
  {
    var k := LastIndexOf(filename, '.');
    assert filename == filename[..k] + "." + filename[k + 1..];
  }

  /** The stem keeps every dot but the last. */
  lemma StemDropsOnlyLastDot(filename: string)
    requires '.' in filename
    ensures multiset(GetFileStem(filename))['.'] + 1 == multiset(filename)['.']
  {
    StemExtensionRoundTrip(filename);
    var stem, ext := GetFileStem(filename), GetFileExtension(filename);
    assert multiset(filename) == multiset(stem) + multiset(".") + multiset(ext);
  }

  /** `truncateFileName`: names shorter than 26 characters are shown as they
      are; longer ones keep their first 22 characters, then "... ." and the
      extension. */
  function TruncateFileName(val: string): (r: string)
    ensures |val| < 26 ==> r == val
    ensures |val| >= 26 ==>
      var ext := GetFileExtension(val);
      && |r| == 27 + |ext|
      && r[..22] == val[..22]
      && r[22..27] == "... ."
      && r[27..] == ext
  {
    if |val| < 26 then val
    else val[..22] + "... ." + GetFileExtension(val)
  }

  /** Truncation keeps what the client shows as the extension, and a
      truncated name is never longer than 27 characters plus that extension. */
  lemma TruncateKeepsExtension(val: string)
    ensures GetFileExtension(TruncateFileName(val)) == GetFileExtension(val)
    ensures |TruncateFileName(val)| <= 27 + |GetFileExtension(val)|
  {
    if |val| >= 26 {
      var r, ext := TruncateFileName(val), GetFileExtension(val);
      assert r[26] == '.';
      assert r[27..] == ext;
    }
  }

  /** `formatImageType`: "UNKNOWN" unless the text starts with "image/", else
      the upper-cased last piece of `split("/")`. */
  function FormatImageType(contentType: string): (r: string)
    ensures !StartsWith(contentType, "image/") ==> r == "UNKNOWN"
    ensures StartsWith(contentType, "image/") ==> r == Upper(AfterLast(contentType, '/'))
    ensures StartsWith(contentType, "image/") ==> '/' !in r
  {
    if !StartsWith(contentType, "image/") then "UNKNOWN"
    else
      SplitLast(contentType, '/');
      var sub := Last(Split(contentType, '/'));
      assert forall i :: 0 <= i < |sub| ==> UpperChar(sub[i]) != '/';
      Upper(sub)
  }

  /** Since "image/" holds a slash, the display type is just the subtype. */
  lemma FormatImageTypeIsSubtype(sub: string)
    requires '/' !in sub
    ensures FormatImageType("image/" + sub) == Upper(sub)
  {
    var ct := "image/" + sub;
    assert ct[..6] == "image/";
    assert LastIndexOf(ct, '/') == 5 by {
      assert ct[5] == '/' && ct[6..] == sub;
    }
  }
}
