/** The two validators attached to image upload fields: an extension whitelist and a size cap. */
module Validators {
  import opened Wrappers
  import Text

  /** An uploaded file as the validators see it: its name and its size in bytes. */
  datatype UploadedFile = UploadedFile(name: string, size: int)

  const ValidExtensions: seq<string> := [".jpg", ".jpeg", ".png"]
  /** Two mebibytes, the largest accepted upload. */
  const MaxUploadSize: int := 2097152
  const ExtensionMessage: string := "Unsupported file extension."
  const SizeMessage: string := "The maximum file size that can be uploaded is 2MB"

  /** Python's `str.rfind` for one character: the last index holding `c`, or -1. */
  function RFind(p: string, c: char): (r: int)
    ensures -1 <= r < |p|
    ensures 0 <= r ==> p[r] == c
    ensures forall j :: r < j < |p| ==> p[j] != c
  {
    if p == [] then -1
    else if p[|p| - 1] == c then |p| - 1
    else RFind(p[..|p| - 1], c)
  }

  /** Whether `p[lo..hi]` holds a character other than a dot: the leading-dot scan of `splitext`. */
  function HasNonDot(p: string, lo: int, hi: int): (b: bool)
    requires 0 <= lo <= hi <= |p|
    ensures b <==> exists j :: lo <= j < hi && p[j] != '.'
    decreases hi - lo
  {
    if lo == hi then false
    else if p[lo] != '.' then true
    else HasNonDot(p, lo + 1, hi)
  }

  /** `os.path.splitext` on a POSIX path: a dot after the last slash starts the extension,
      unless everything before it in the final component is dots. */
  function SplitExt(p: string): (r: (string, string))
    ensures r.0 + r.1 == p
  {
    var sepIndex := RFind(p, '/');
    var dotIndex := RFind(p, '.');
    if dotIndex > sepIndex && HasNonDot(p, sepIndex + 1, dotIndex) then (p[..dotIndex], p[dotIndex..])
    else (p, "")
  }

  /** `validate_file_extension`: the lower-cased extension must be one of the whitelist. */
  function ValidateFileExtension(f: UploadedFile): (r: Outcome<string>)
    ensures r.Fail? ==> r.error == ExtensionMessage
  {
    var ext := SplitExt(f.name).1;
    if Text.Lower(ext) in ValidExtensions then Pass else Fail(ExtensionMessage)
  }

  /** `validate_file_size`: files larger than 2 MiB are rejected, 2 MiB itself is accepted. */
  function ValidateFileSize(f: UploadedFile): (r: Outcome<string>)
    ensures r.Pass? <==> f.size <= 2 * 1024 * 1024
    ensures r.Fail? ==> r.error == SizeMessage
  {
    if f.size > MaxUploadSize then Fail(SizeMessage) else Pass
  }

  // ---------------------------------------------------------------------------
  // An independent description of the extension `splitext` finds.

  /** The dot at index `k` begins the extension of `p`: no dot or slash follows it, and the
      final path component holds a character other than a dot before it. */
  ghost predicate ExtensionAt(p: string, k: int)
  {
    && 0 <= k < |p| && p[k] == '.'
    && (forall j :: k < j < |p| ==> p[j] != '.' && p[j] != '/')
    && (exists j :: 0 <= j < k && p[j] != '.' && p[j] != '/' && NoSlashBetween(p, j, k))
  }

  ghost predicate NoSlashBetween(p: string, lo: int, hi: int)
    requires 0 <= lo <= hi <= |p|
  {
    forall m :: lo <= m < hi ==> p[m] != '/'
  }

  /** When the dot at `k` begins an extension, `splitext` splits there. */
  lemma ExtensionAtSplits(p: string, k: int)
    requires ExtensionAt(p, k)
    ensures SplitExt(p) == (p[..k], p[k..])
  {
    var sepIndex := RFind(p, '/');
    var dotIndex := RFind(p, '.');
    assert dotIndex == k;
    var j :| 0 <= j < k && p[j] != '.' && p[j] != '/' && NoSlashBetween(p, j, k);
    assert sepIndex < j;
    assert HasNonDot(p, sepIndex + 1, dotIndex);
  }

  /** A non-empty extension from `splitext` always begins at such a dot. */
  lemma SplitExtIsExtensionAt(p: string)
    requires SplitExt(p).1 != ""
    ensures ExtensionAt(p, |SplitExt(p).0|)
  {
    var sepIndex := RFind(p, '/');
    var dotIndex := RFind(p, '.');
    assert dotIndex > sepIndex && HasNonDot(p, sepIndex + 1, dotIndex);
    var j :| sepIndex + 1 <= j < dotIndex && p[j] != '.';
    assert NoSlashBetween(p, j, dotIndex);
  }

  /** The whitelist accepts exactly the names whose extension, lower-cased, is listed. */
  lemma ExtensionAccepted(f: UploadedFile)
    ensures ValidateFileExtension(f).Pass?
        <==> exists k :: ExtensionAt(f.name, k) && Text.Lower(f.name[k..]) in ValidExtensions
  {
    var ext := SplitExt(f.name).1;
    if ValidateFileExtension(f).Pass? {
      assert ext != "";
      SplitExtIsExtensionAt(f.name);
      var k := |SplitExt(f.name).0|;
      assert f.name[k..] == ext;
    }
    if k :| ExtensionAt(f.name, k) && Text.Lower(f.name[k..]) in ValidExtensions {
      ExtensionAtSplits(f.name, k);
    }
  }

  /** A name without any dot has no extension and is rejected. */
  lemma NoDotRejected(f: UploadedFile)
    requires forall i :: 0 <= i < |f.name| ==> f.name[i] != '.'
    ensures ValidateFileExtension(f) == Fail(ExtensionMessage)
  {
    assert RFind(f.name, '.') == -1;
  }

  /** A final component that is one leading dot and no other dot, such as `.png`
      or `photos/.png`, has no extension and is rejected. */
  lemma HiddenNameRejected(f: UploadedFile, dir: string, stem: string)
    requires dir == [] || dir[|dir| - 1] == '/'
    requires forall i :: 0 <= i < |stem| ==> stem[i] != '.' && stem[i] != '/'
    requires f.name == dir + "." + stem
    ensures ValidateFileExtension(f) == Fail(ExtensionMessage)
  {
    var p := f.name;
    var dotIndex := RFind(p, '.');
    var sepIndex := RFind(p, '/');
    assert p[|dir|] == '.';
    assert forall j :: |dir| < j < |p| ==> p[j] == stem[j - |dir| - 1];
    assert dir != [] ==> p[|dir| - 1] == '/';
    assert dotIndex == |dir|;
    assert sepIndex == |dir| - 1;
    assert !HasNonDot(p, sepIndex + 1, dotIndex);
  }

  /** Case does not matter: two names equal after lower-casing get the same verdict. */
  lemma CaseInsensitive(f: UploadedFile, g: UploadedFile)
    requires Text.Lower(f.name) == Text.Lower(g.name)
    ensures ValidateFileExtension(f) == ValidateFileExtension(g)
  {
    var p, q := f.name, g.name;
    assert |p| == |q|;
    forall j | 0 <= j < |p|
      ensures (p[j] == '.' <==> q[j] == '.') && (p[j] == '/' <==> q[j] == '/')
    {
      assert Text.LowerChar(p[j]) == Text.LowerChar(q[j]);
    }
    RFindAgrees(p, q, '.');
    RFindAgrees(p, q, '/');
    var sepIndex := RFind(p, '/');
    var dotIndex := RFind(p, '.');
    if dotIndex > sepIndex {
      assert HasNonDot(p, sepIndex + 1, dotIndex) == HasNonDot(q, sepIndex + 1, dotIndex);
      Text.LowerSuffix(p, dotIndex);
      Text.LowerSuffix(q, dotIndex);
    }
  }

  lemma RFindAgrees(p: string, q: string, c: char)
    requires |p| == |q|
    requires forall j :: 0 <= j < |p| ==> (p[j] == c <==> q[j] == c)
    ensures RFind(p, c) == RFind(q, c)
  {
  }

  /** A stem ending in an ordinary character followed by one dotted suffix: `splitext`
      separates exactly that suffix. */
  lemma StemAndSuffix(p: string, stem: string, suffix: string)
    requires |stem| > 0 && stem[|stem| - 1] != '.' && stem[|stem| - 1] != '/'
    requires |suffix| > 0 && suffix[0] == '.'
    requires forall i :: 0 < i < |suffix| ==> suffix[i] != '.' && suffix[i] != '/'
    requires p == stem + suffix
    ensures SplitExt(p) == (stem, suffix)
  {
    var k := |stem|;
    assert p[k - 1] == stem[k - 1] && NoSlashBetween(p, k - 1, k);
    assert ExtensionAt(p, k);
    ExtensionAtSplits(p, k);
    assert p[..k] == stem && p[k..] == suffix;
  }

  /** With such a name the verdict is decided by the suffix alone, lower-cased. */
  lemma SuffixDecides(f: UploadedFile, stem: string, suffix: string)
    requires |stem| > 0 && stem[|stem| - 1] != '.' && stem[|stem| - 1] != '/'
    requires |suffix| > 0 && suffix[0] == '.'
    requires forall i :: 0 < i < |suffix| ==> suffix[i] != '.' && suffix[i] != '/'
    requires f.name == stem + suffix
    ensures ValidateFileExtension(f).Pass? <==> Text.Lower(suffix) in ValidExtensions
  {
    StemAndSuffix(f.name, stem, suffix);
  }

  /** Upper-case whitelisted extensions are accepted. */
  lemma UpperCaseAccepted()
    ensures ValidateFileExtension(UploadedFile("photo.JPG", 0)).Pass?
  {
    assert Text.Lower(".JPG") == ".jpg";
    SuffixDecides(UploadedFile("photo.JPG", 0), "photo", ".JPG");
  }

  /** Mixed-case whitelisted extensions are accepted. */
  lemma MixedCaseAccepted()
    ensures ValidateFileExtension(UploadedFile("photo.Png", 0)).Pass?
  {
    assert Text.Lower(".Png") == ".png";
    SuffixDecides(UploadedFile("photo.Png", 0), "photo", ".Png");
  }

  /** Only the part after the last dot counts: `x.tar.png` passes. */
  lemma InnerDotIgnored()
    ensures ValidateFileExtension(UploadedFile("x.tar.png", 0)).Pass?
  {
    assert Text.Lower(".png") == ".png";
    SuffixDecides(UploadedFile("x.tar.png", 0), "x.tar", ".png");
  }

  /** Only the part after the last dot counts: `x.png.exe` fails. */
  lemma LastDotDecides()
    ensures ValidateFileExtension(UploadedFile("x.png.exe", 0)).Fail?
  {
    assert Text.Lower(".exe") == ".exe";
    SuffixDecides(UploadedFile("x.png.exe", 0), "x.png", ".exe");
  }

  /** The size cap is inclusive: exactly 2 MiB passes, one byte more fails. */
  lemma SizeBoundary()
    ensures ValidateFileSize(UploadedFile("a.png", 2097152)) == Pass
    ensures ValidateFileSize(UploadedFile("a.png", 2097153)) == Fail(SizeMessage)
  {
  }
}
