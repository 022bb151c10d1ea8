/**
 * The file-name filter of utils.py: a name is accepted when it has a '.'
 * and the text after the last '.', lower-cased, is one of the configured
 * image extensions.
 */
module Utils {

  import opened Wrappers
  import opened Text

  /** ALLOWED_EXTENSIONS of the configuration. */
  const ALLOWED_EXTENSIONS: set<string> := {"png", "jpg", "jpeg", "gif"}

  /** The index of the last '.' in s, if there is one. */
  function LastDot(s: string): (r: Option<nat>)
    ensures r.None? <==> '.' !in s
    ensures r.Some? ==> r.value < |s| && s[r.value] == '.' && '.' !in s[r.value + 1..]
  {
    if s == [] then None
    else if s[|s| - 1] == '.' then Some(|s| - 1)
    else
      var r := LastDot(s[..|s| - 1]);
      assert s == s[..|s| - 1] + [s[|s| - 1]];
      assert r.Some? ==> s[r.value + 1..] == s[..|s| - 1][r.value + 1..] + [s[|s| - 1]];
      r
  }

  /** allowed_file: '.' in name and name.rsplit('.', 1)[1].lower() is an allowed extension. */
  function AllowedFile(filename: string): (ok: bool)
    ensures ok ==> '.' in filename && 4 <= |filename| && filename[|filename| - 1] != '.'
  {
    match LastDot(filename)
    case None => false
    case Some(i) => Lower(filename[i + 1..]) in ALLOWED_EXTENSIONS
  }

  /** The filter, stated without LastDot: some '.' has no '.' after it and is followed by an allowed extension. */
  lemma AllowedFileIff(filename: string)
    ensures AllowedFile(filename) <==>
      exists i :: 0 <= i < |filename| && filename[i] == '.' && '.' !in filename[i + 1..]
                  && Lower(filename[i + 1..]) in ALLOWED_EXTENSIONS
  {
    var d := LastDot(filename);
    forall i | 0 <= i < |filename| && filename[i] == '.' && '.' !in filename[i + 1..]
      ensures d == Some(i)
    {
    }
  }

  /** Once the last '.' is known, the lower-cased text after it decides. */
  lemma ExtensionDecides(filename: string, i: nat)
    requires LastDot(filename) == Some(i)
    ensures AllowedFile(filename) == (Lower(filename[i + 1..]) in ALLOWED_EXTENSIONS)
  {
  }

  /** A name without a '.' is refused. */
  lemma NoDotRefused(filename: string)
    requires '.' !in filename
    ensures !AllowedFile(filename)
  {
  }

  lemma {:induction false} LastDotOfLower(s: string)
    ensures LastDot(Lower(s)) == LastDot(s)
  {
    if s != [] {
      var init := s[..|s| - 1];
      assert Lower(s)[..|s| - 1] == Lower(init);
      LastDotOfLower(init);
    }
  }

  /** Case does not matter: lower-casing the whole name leaves the verdict unchanged. */
  lemma AllowedFileCaseInsensitive(filename: string)
    ensures AllowedFile(Lower(filename)) == AllowedFile(filename)
  {
    LastDotOfLower(filename);
    var d := LastDot(filename);
    if d.Some? {
      LowerKeepsExtensionVerdict(filename, d.value);
    }
  }

  lemma LowerKeepsExtensionVerdict(filename: string, i: nat)
    requires LastDot(filename) == Some(i)
    ensures AllowedFile(Lower(filename)) == AllowedFile(filename)
  {
    var ext := filename[i + 1..];
    LastDotOfLower(filename);
    ExtensionDecides(Lower(filename), i);
    ExtensionDecides(filename, i);
    LowerSuffix(filename, i + 1);
    LowerIdempotent(ext);
    assert Lower(Lower(filename)[i + 1..]) == Lower(ext);
  }

  /** Upper-case extensions pass, and only the last segment counts. */
  lemma AcceptedExamples()
    ensures AllowedFile("A.JPG")
    ensures AllowedFile("holiday.photo.png")
  {
    assert LastDot("A.JPG") == Some(1);
    ExtensionDecides("A.JPG", 1);
    assert "A.JPG"[2..] == "JPG";
    assert Lower("JPG") == "jpg";
    assert LastDot("holiday.photo.png") == Some(13);
    ExtensionDecides("holiday.photo.png", 13);
    assert "holiday.photo.png"[14..] == "png";
    assert Lower("png") == "png";
  }

  /** A disallowed last segment, a missing '.', and an empty extension are all refused. */
  lemma RefusedExamples()
    ensures !AllowedFile("x.jpg.exe")
    ensures !AllowedFile("jpg")
    ensures !AllowedFile("photo.")
  {
    assert LastDot("x.jpg.exe") == Some(5);
    ExtensionDecides("x.jpg.exe", 5);
    assert "x.jpg.exe"[6..] == "exe";
    assert Lower("exe") == "exe";
    assert LastDot("photo.") == Some(5);
    assert "photo."[6..] == [];
    NoDotRefused("jpg");
  }
}
