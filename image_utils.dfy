/** Upload configuration and the file-name helpers of the image utilities
    (src/utils/imageUtils.js). */
module ImageUtils {
  import opened PosixPath

  /** UPLOAD_CONFIG.MAX_SIZE: 10 MB. */
  const MaxSize: nat := 10 * 1024 * 1024

  /** UPLOAD_CONFIG.ALLOWED_MIME_TYPES */
  const AllowedMimeTypes: seq<string> := ["image/jpeg", "image/png", "image/gif", "image/webp"]

  /** UPLOAD_CONFIG.ALLOWED_EXTENSIONS */
  const AllowedExtensions: seq<string> := [".jpg", ".jpeg", ".png", ".gif", ".webp"]

  /** The character class `[a-zA-Z0-9._-]` that survives sanitising. */
  predicate SafeChar(c: char) {
    ('a' <= c <= 'z') || ('A' <= c <= 'Z') || ('0' <= c <= '9') || c == '.' || c == '_' || c == '-'
  }

  predicate SafeName(s: string) {
    forall i :: 0 <= i < |s| ==> SafeChar(s[i])
  }

  /** `s.replace(/[^a-zA-Z0-9._-]/g, '_')` */
  function ReplaceUnsafe(s: string): (r: string)
    ensures |r| == |s|
    ensures forall i :: 0 <= i < |s| ==> r[i] == if SafeChar(s[i]) then s[i] else '_'
  {
    seq(|s|, i requires 0 <= i < |s| => if SafeChar(s[i]) then s[i] else '_')
  }

  /** sanitizeFilename: keep the last path component, then replace every
      character outside `[a-zA-Z0-9._-]` by '_'. */
  function Sanitize(filename: string): (r: string)
    ensures SafeName(r) && '/' !in r
    ensures |r| == |Basename(filename)|
  {
    ReplaceUnsafe(Basename(filename))
  }

  /** A '/'-free name made only of safe characters is left as it is, and
      only such names are: `Sanitize(n) == n` exactly when n is safe. */
  lemma SanitizeFixedPoint(n: string)
    ensures Sanitize(n) == n <==> SafeName(n)
  {
    if SafeName(n) {
      assert '/' !in n;
      BasenameOfComponent(n);
      ReplaceSafe(n);
    }
  }

  /** The replacement leaves a safe name alone. */
  lemma ReplaceSafe(n: string)
    requires SafeName(n)
    ensures ReplaceUnsafe(n) == n
  {
    assert forall i :: 0 <= i < |n| ==> ReplaceUnsafe(n)[i] == n[i];
  }

  /** Sanitising twice is sanitising once. */
  lemma SanitizeIdempotent(filename: string)
    ensures Sanitize(Sanitize(filename)) == Sanitize(filename)
  {
    SanitizeFixedPoint(Sanitize(filename));
  }

  /** Directory parts are dropped: a traversal path keeps only its last name. */
  lemma SanitizeDropsDirectories()
    ensures Sanitize("../../etc/passwd") == "passwd"
  {
    var name := "passwd";
    assert "../../etc/passwd" == "../../etc" + "/" + name;
    BasenameAfterSlash("../../etc", name);
    SanitizeSafeBase("../../etc/passwd");
  }

  /** A path whose basename is safe sanitises to that basename. */
  lemma SanitizeSafeBase(p: string)
    requires SafeName(Basename(p))
    ensures Sanitize(p) == Basename(p)
  {
    ReplaceSafe(Basename(p));
  }

  /** The basename of a path ending in '/' and a non-empty name is that name. */
  lemma BasenameAfterSlash(dir: string, name: string)
    requires '/' !in name && name != []
    ensures Basename(dir + "/" + name) == name
  {
    var p := dir + "/" + name;
    assert p[|p| - 1] == name[|name| - 1];
    assert StripTrailingSlashes(p) == p;
    AfterLastSlashSplit(dir, name);
  }

  lemma {:induction false} AfterLastSlashSplit(dir: string, name: string)
    requires '/' !in name
    ensures AfterLastSlash(dir + "/" + name) == name
  {
    if name == [] {
      assert (dir + "/" + name)[|dir + "/" + name| - 1] == '/';
    } else {
      var p := dir + "/" + name;
      assert p[..|p| - 1] == dir + "/" + name[..|name| - 1];
      assert '/' !in name[..|name| - 1];
      AfterLastSlashSplit(dir, name[..|name| - 1]);
      assert name[..|name| - 1] + [name[|name| - 1]] == name;
    }
  }

  /** The dot names '.' and '..' are fixed points of sanitising. */
  lemma DotNamesAreFixedPoints()
    ensures Sanitize(".") == "." && Sanitize("..") == ".."
  {
    assert SafeName(".") && SafeName("..");
    SanitizeFixedPoint(".");
    SanitizeFixedPoint("..");
  }

  /** generateUniqueFilename with the uuid supplied: the sanitised base name,
      '-', the uuid, then the sanitised extension. */
  function GenerateUniqueFilename(originalName: string, uuid: string): string {
    var sanitized := Sanitize(originalName);
    var extension := Extname(sanitized);
    BasenameWithout(sanitized, extension) + "-" + uuid + extension
  }

  /** A v4 uuid's text: hexadecimal digits and dashes, no dots. */
  predicate UuidText(u: string) {
    forall i :: 0 <= i < |u| ==> ('0' <= u[i] <= '9') || ('a' <= u[i] <= 'f') || u[i] == '-'
  }

  /** The sanitised name's base is the sanitised name minus its extension. */
  lemma BaseAndExtension(s: string)
    requires '/' !in s
    ensures BasenameWithout(s, ComponentExt(s)) + ComponentExt(s) == s
  {
    var e := ComponentExt(s);
    if e != [] {
      assert s[..|s| - |e|] + s[|s| - |e|..] == s;
    }
  }

  /** The generated name holds only safe characters, and it is the
      sanitised name with "-" and the uuid put before the extension. */
  lemma UniqueFilenameSafe(originalName: string, uuid: string)
    requires UuidText(uuid)
    ensures SafeName(GenerateUniqueFilename(originalName, uuid))
    ensures var s := Sanitize(originalName);
            exists k :: 0 <= k <= |s| && GenerateUniqueFilename(originalName, uuid) == s[..k] + "-" + uuid + s[k..]
  {
    var s := Sanitize(originalName);
    BasenameOfComponent(s);
    var e := ComponentExt(s);
    var b := BasenameWithout(s, e);
    BaseAndExtension(s);
    assert b == s[..|b|] && e == s[|b|..];
    SafeSplice(s, |b|, uuid);
  }

  /** Putting "-" and a uuid anywhere into a safe name keeps it safe. */
  lemma SafeSplice(s: string, k: nat, uuid: string)
    requires SafeName(s) && UuidText(uuid) && k <= |s|
    ensures SafeName(s[..k] + "-" + uuid + s[k..])
  {
    var r := s[..k] + "-" + uuid + s[k..];
    forall i | 0 <= i < |r|
      ensures SafeChar(r[i])
    {
      if i < k {
        assert r[i] == s[i];
      } else if i == k {
      } else if i <= k + |uuid| {
        assert r[i] == uuid[i - k - 1];
      } else {
        assert r[i] == s[i - 1 - |uuid|];
      }
    }
  }

  /** The generated name keeps the sanitised extension of the original name
      (except for the name '..', whose "-uuid" tail becomes an extension). */
  lemma UniqueFilenameKeepsExtension(originalName: string, uuid: string)
    requires UuidText(uuid)
    requires Sanitize(originalName) != ".."
    ensures Extname(GenerateUniqueFilename(originalName, uuid)) == Extname(Sanitize(originalName))
  {
    GeneratedKeepsExtension(Sanitize(originalName), uuid);
  }

  /** The same, for any '/'-free name other than '..'. */
  lemma GeneratedKeepsExtension(s: string, uuid: string)
    requires '/' !in s && s != ".." && UuidText(uuid)
    ensures Extname(BasenameWithout(s, Extname(s)) + "-" + uuid + Extname(s)) == Extname(s)
  {
    BasenameOfComponent(s);
    var e := ComponentExt(s);
    var b := BasenameWithout(s, e);
    if e == [] {
      NoExtensionKept(s, uuid);
      assert b + "-" + uuid + e == s + "-" + uuid;
      assert '/' !in uuid;
      BasenameOfComponent(s + "-" + uuid);
    } else {
      assert b == s[..|s| - |e|];
      ExtensionKept(b, uuid, e);
    }
  }

  lemma ExtensionKept(b: string, uuid: string, e: string)
    requires '/' !in b && '/' !in e && UuidText(uuid)
    requires e != [] && e[0] == '.'
    requires forall i :: 0 < i < |e| ==> e[i] != '.'
    ensures Extname(b + "-" + uuid + e) == e
  {
    var a := b + "-" + uuid;
    var r := a + e;
    assert '/' !in uuid;
    assert '/' !in a;
    assert b + "-" + uuid + e == r;
    BasenameOfComponent(r);
    LastDotOfSuffix(a, e);
    assert r[|b|] == '-';
    assert r != "..";
    assert r[|a|..] == e;
  }

  /** A name without extension gives a generated name without extension. */
  lemma NoExtensionKept(s: string, uuid: string)
    requires '/' !in s && s != ".."
    requires ComponentExt(s) == []
    requires UuidText(uuid)
    ensures ComponentExt(s + "-" + uuid) == []
  {
    var t := "-" + uuid;
    assert s + "-" + uuid == s + t;
    LastDotAfterDotFree(s, t);
  }

  lemma {:induction false} LastDotAfterDotFree(a: string, t: string)
    requires forall i :: 0 <= i < |t| ==> t[i] != '.'
    ensures LastDot(a + t) == LastDot(a)
  {
    if t != [] {
      assert (a + t)[..|a + t| - 1] == a + t[..|t| - 1];
      LastDotAfterDotFree(a, t[..|t| - 1]);
    } else {
      assert a + t == a;
    }
  }
}
