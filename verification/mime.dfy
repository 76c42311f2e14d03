/**
 * `getMimeType` of `src/lib/mime.ts` (repeated verbatim in `src/server.tsx`):
 * the content type of a static file from the lower-cased extension of its
 * path, as the POSIX `extname` of the Deno standard library finds it.
 */
module Mime {
  import opened Wrappers
  import opened Text

  /** The last position of `c` in `s`. */
  function LastIndexOf(s: string, c: char): (r: Option<nat>)
    ensures r.Some? ==> r.value < |s| && s[r.value] == c && c !in s[r.value + 1..]
    ensures r.None? ==> c !in s
  {
    if |s| == 0 then None
    else if s[|s| - 1] == c then Some(|s| - 1)
    else
      var r := LastIndexOf(s[..|s| - 1], c);
      assert s == s[..|s| - 1] + [s[|s| - 1]];
      if r.Some? then assert s[r.value + 1..] == s[..|s| - 1][r.value + 1..] + [s[|s| - 1]]; r
      else r
  }

  /** The path without its trailing slashes. */
  function TrimTrailingSlashes(p: string): (r: string)
    ensures |r| <= |p| && r == p[..|r|]
    ensures r == [] || r[|r| - 1] != '/'
    ensures forall i :: |r| <= i < |p| ==> p[i] == '/'
  {
    if |p| > 0 && p[|p| - 1] == '/' then TrimTrailingSlashes(p[..|p| - 1]) else p
  }

  /** The last segment of the path, trailing slashes ignored. */
  function BaseName(p: string): (b: string)
    ensures '/' !in b
  {
    var t := TrimTrailingSlashes(p);
    match LastIndexOf(t, '/')
    case Some(k) => t[k + 1..]
    case None => t
  }

  /** `extname`: the last segment from its last dot on; empty when the segment
      has no dot, when its only dot comes first (a hidden file such as
      `.env`), and for the segment `..`. */
  function Extname(p: string): (ext: string)
    ensures ext == [] || (ext[0] == '.' && '.' !in ext[1..] && '/' !in ext && HasSuffix(BaseName(p), ext))
    ensures ext == [] <==>
      var b := BaseName(p);
      var d := LastIndexOf(b, '.');
      d.None? || d == Some(0) || b == ".."
  {
    var b := BaseName(p);
    match LastIndexOf(b, '.')
    case None => ""
    case Some(d) =>
      if d == 0 || b == ".." then ""
      else
        assert b[d..][1..] == b[d + 1..];
        b[d..]
  }

  /** The seven extensions served with a specific type. */
  const MimeTypes: map<string, string> := map[
    ".html" := "text/html",
    ".css" := "text/css",
    ".js" := "application/javascript",
    ".jpg" := "image/jpeg",
    ".jpeg" := "image/jpeg",
    ".png" := "image/png",
    ".webp" := "image/webp"
  ]

  const OctetStream: string := "application/octet-stream"

  /** `getMimeType`: the table's type for the lower-cased extension, and the
      generic binary type for any other extension or none. Every type in the
      table is non-empty, so the `||` fallback is taken exactly on a miss. */
  function GetMimeType(path: string): (mime: string)
    ensures ToLower(Extname(path)) in MimeTypes ==> mime == MimeTypes[ToLower(Extname(path))]
    ensures ToLower(Extname(path)) !in MimeTypes ==> mime == OctetStream
    ensures mime == OctetStream <==> ToLower(Extname(path)) !in MimeTypes
  {
    var ext := ToLower(Extname(path));
    if ext in MimeTypes && MimeTypes[ext] != "" then MimeTypes[ext] else OctetStream
  }

  /** Exactly seven extensions are known, and the two JPEG spellings share a
      type. */
  lemma TableShape()
    ensures MimeTypes.Keys == {".html", ".css", ".js", ".jpg", ".jpeg", ".png", ".webp"}
    ensures |MimeTypes.Keys| == 7
    ensures MimeTypes[".jpg"] == MimeTypes[".jpeg"] == "image/jpeg"
  {
    var ks := {".html", ".css", ".js", ".jpg", ".jpeg", ".png", ".webp"};
    assert MimeTypes.Keys == ks;
    assert ".html" != ".css" && ".js" != ".jpg" && ".jpeg" != ".png";
    assert |ks - {".webp"}| == 6;
  }

  lemma LowerChars(s: string, i: nat)
    requires i < |s|
    ensures ToLower(s)[i] == '.' <==> s[i] == '.'
    ensures ToLower(s)[i] == '/' <==> s[i] == '/'
  {
  }

  lemma LowerPrefix(s: string, n: nat)
    requires n <= |s|
    ensures ToLower(s)[..n] == ToLower(s[..n]) && ToLower(s)[n..] == ToLower(s[n..])
  {
  }

  lemma {:induction false} LastIndexLower(s: string, c: char)
    requires c == '.' || c == '/'
    ensures LastIndexOf(ToLower(s), c) == LastIndexOf(s, c)
    decreases |s|
  {
    if |s| > 0 {
      LowerChars(s, |s| - 1);
      LowerPrefix(s, |s| - 1);
      LastIndexLower(s[..|s| - 1], c);
    }
  }

  lemma {:induction false} TrimLower(p: string)
    ensures TrimTrailingSlashes(ToLower(p)) == ToLower(TrimTrailingSlashes(p))
    decreases |p|
  {
    if |p| > 0 {
      LowerChars(p, |p| - 1);
      LowerPrefix(p, |p| - 1);
      TrimLower(p[..|p| - 1]);
    }
  }

  lemma BaseLower(p: string)
    ensures BaseName(ToLower(p)) == ToLower(BaseName(p))
  {
    TrimLower(p);
    var t := TrimTrailingSlashes(p);
    assert TrimTrailingSlashes(ToLower(p)) == ToLower(t);
    LastIndexLower(t, '/');
    var k := LastIndexOf(t, '/');
    if k.Some? {
      LowerPrefix(t, k.value + 1);
      assert BaseName(ToLower(p)) == ToLower(t)[k.value + 1..];
    } else {
      assert BaseName(ToLower(p)) == ToLower(t);
    }
  }

  lemma DotDotLower(b: string)
    ensures ToLower(b) == ".." <==> b == ".."
  {
    if ToLower(b) == ".." {
      LowerChars(b, 0);
      LowerChars(b, 1);
      assert b == "..";
    }
  }

  /** Lower-casing a path lower-cases its extension and nothing more. */
  lemma ExtnameLower(p: string)
    ensures Extname(ToLower(p)) == ToLower(Extname(p))
  {
    BaseLower(p);
    var b := BaseName(p);
    var lb := ToLower(b);
    assert BaseName(ToLower(p)) == lb;
    LastIndexLower(b, '.');
    DotDotLower(b);
    var d := LastIndexOf(b, '.');
    if d.Some? && d.value != 0 && b != ".." {
      LowerPrefix(b, d.value);
      assert Extname(ToLower(p)) == lb[d.value..];
    } else {
      assert Extname(ToLower(p)) == "" && Extname(p) == "";
    }
  }

  lemma {:induction false} LastIndexAfter(a: string, c: char, b: string)
    requires c !in b
    ensures LastIndexOf(a + [c] + b, c) == Some(|a|)
    decreases |b|
  {
    if |b| > 0 {
      var s := a + [c] + b;
      assert s[..|s| - 1] == a + [c] + b[..|b| - 1];
      LastIndexAfter(a, c, b[..|b| - 1]);
    }
  }

  /** The base name of a path ending in `/name` is `name`. */
  lemma BaseOf(dir: string, name: string)
    requires '/' !in name && |name| > 0
    ensures BaseName(dir + "/" + name) == name
  {
    var t := dir + "/" + name;
    assert t[|t| - 1] == name[|name| - 1];
    assert TrimTrailingSlashes(t) == t;
    assert t == dir + ['/'] + name;
    LastIndexAfter(dir, '/', name);
    assert t[|dir| + 1..] == name;
  }

  /** A file `name.ext` whose name does not start with a dot has the
      extension `.ext`. */
  lemma ExtensionOf(dir: string, name: string, ext: string)
    requires '/' !in name && '/' !in ext && '.' !in ext && |name| > 0 && name[0] != '.'
    ensures Extname(dir + "/" + name + "." + ext) == "." + ext
  {
    var b := name + "." + ext;
    assert '/' !in b;
    assert dir + "/" + name + "." + ext == dir + "/" + b;
    BaseOf(dir, b);
    DotInName(name, ext);
  }

  lemma DotInName(name: string, ext: string)
    requires '.' !in ext && |name| > 0 && name[0] != '.'
    ensures var b := name + "." + ext;
      LastIndexOf(b, '.') == Some(|name|) && b != ".." && b[|name|..] == "." + ext
  {
    var b := name + "." + ext;
    assert b == name + ['.'] + ext;
    LastIndexAfter(name, '.', ext);
    assert b[0] == name[0];
  }

  /** A hidden file `.ext` has no extension. */
  lemma HiddenFile(dir: string, ext: string)
    requires '/' !in ext && '.' !in ext
    ensures Extname(dir + "/." + ext) == ""
  {
    var b := ['.'] + ext;
    assert '/' !in b;
    assert dir + "/." + ext == dir + "/" + b;
    BaseOf(dir, b);
    LeadingDot(ext);
  }

  lemma LeadingDot(ext: string)
    requires '.' !in ext
    ensures LastIndexOf(['.'] + ext, '.') == Some(0)
  {
    assert [] + ['.'] + ext == ['.'] + ext;
    LastIndexAfter([], '.', ext);
  }

  /** A file name without a dot has no extension. */
  lemma NoExtension(dir: string, name: string)
    requires '/' !in name && '.' !in name && |name| > 0
    ensures Extname(dir + "/" + name) == ""
  {
    BaseOf(dir, name);
  }

  /** A `.PNG` file is served as a PNG image. */
  lemma UpperCasePng(dir: string, name: string)
    requires '/' !in name && |name| > 0 && name[0] != '.'
    ensures GetMimeType(dir + "/" + name + ".PNG") == "image/png"
  {
    var path := dir + "/" + name + ".PNG";
    var png := "PNG";
    assert '/' !in png && '.' !in png;
    assert path == dir + "/" + name + "." + png;
    ExtensionOf(dir, name, png);
    assert "." + png == ".PNG";
    LowerPng();
    PngEntry();
  }

  /** A hidden `.png` file is served as generic binary data. */
  lemma HiddenPng(dir: string)
    ensures GetMimeType(dir + "/.png") == OctetStream
  {
    var ext := "png";
    assert '/' !in ext && '.' !in ext;
    assert dir + "/.png" == dir + "/." + ext;
    HiddenFile(dir, ext);
    NoExtensionIsBinary(dir + "/.png");
  }

  lemma LowerPng()
    ensures ToLower(".PNG") == ".png"
  {
    var l := ToLower(".PNG");
    assert l[0] == LowerChar('.') == '.';
    assert l[1] == LowerChar('P') == 'p';
    assert l[2] == LowerChar('N') == 'n';
    assert l[3] == LowerChar('G') == 'g';
  }

  lemma NoExtensionIsBinary(p: string)
    requires Extname(p) == ""
    ensures GetMimeType(p) == OctetStream
  {
    assert ToLower("") == "";
    PngEntry();
  }

  lemma PngEntry()
    ensures ".png" in MimeTypes && MimeTypes[".png"] == "image/png"
    ensures "" !in MimeTypes
  {
  }

  /** Two paths that differ only in letter case get the same type: `.PNG`
      is served like `.png`. */
  lemma MimeIgnoresCase(p: string, q: string)
    requires ToLower(p) == ToLower(q)
    ensures GetMimeType(p) == GetMimeType(q)
  {
    ExtnameLower(p);
    ExtnameLower(q);
  }
}
