/** The upload utilities: the stored file name built from the client's name,
    the type filter run on every uploaded file, the path guard of file
    deletion, and the answer to an upload error. */
module FileUpload {
  import opened Basics
  import opened Text
  import opened Http
  import opened Security

  const AllowedImageTypes: seq<string> := ["image/jpeg", "image/jpg", "image/png", "image/gif", "image/webp"]

  const AllowedExts: seq<string> := [".jpg", ".jpeg", ".png", ".gif", ".webp"]

  /** The longest stem a stored name keeps. */
  const StemLimit: nat := 50

  // ---------------------------------------------------------------------
  // path components

  /** Position of the last `c` in `s`. */
  function LastIndexOfChar(s: string, c: char): (r: Option<nat>)
    ensures r.None? <==> c !in s
    ensures r.Some? ==> r.value < |s| && s[r.value] == c && c !in s[r.value + 1..]
  {
    if |s| == 0 then None
    else if s[|s| - 1] == c then Some(|s| - 1)
    else
      var r := LastIndexOfChar(s[..|s| - 1], c);
      assert s == s[..|s| - 1] + [s[|s| - 1]];
      r
  }

  /** The last component of a path: what follows its last `/`. */
  function Basename(p: string): (b: string)
    ensures '/' !in b && |b| <= |p| && p[|p| - |b|..] == b
  {
    match LastIndexOfChar(p, '/')
    case None => p
    case Some(i) => p[i + 1..]
  }

  /** The extension of one path component: from its last dot on, unless that
      dot leads the component or the component is `..`. */
  function ExtOf(b: string): (e: string)
    ensures e == "" || (e[0] == '.' && '.' !in e[1..])
    ensures |e| <= |b| && b[|b| - |e|..] == e
  {
    match LastIndexOfChar(b, '.')
    case None => ""
    case Some(i) =>
      if i == 0 || b == ".." then ""
      else
        assert b[i..][1..] == b[i + 1..];
        b[i..]
  }

  /** `path.extname`: the extension of the last component. */
  function ExtName(p: string): (e: string)
    ensures e == "" || (e[0] == '.' && '.' !in e[1..])
    ensures '/' !in e && |e| <= |p| && p[|p| - |e|..] == e
  {
    var b := Basename(p);
    var e := ExtOf(b);
    SuffixOfSuffix(p, b, e);
    assert '/' !in e;
    e
  }

  /** A suffix of a suffix is a suffix, and holds no character the longer
      one lacks. */
  lemma SuffixOfSuffix(p: string, b: string, e: string)
    requires |b| <= |p| && p[|p| - |b|..] == b
    requires |e| <= |b| && b[|b| - |e|..] == e
    ensures |e| <= |p| && p[|p| - |e|..] == e
    ensures forall c :: c in e ==> c in b
  {
    assert p[|p| - |e|..] == p[|p| - |b|..][|b| - |e|..];
    forall c | c in e ensures c in b {
      var k :| 0 <= k < |e| && e[k] == c;
      assert b[|b| - |e| + k] == c;
    }
  }

  /** A name made of a stem and a one-dot extension has that extension. */
  lemma ExtNameOf(stem: string, ext: string)
    requires '/' !in stem + ext
    requires |ext| >= 1 && ext[0] == '.' && '.' !in ext[1..]
    requires |stem| > 0 && stem + ext != ".."
    ensures ExtName(stem + ext) == ext
  {
    var s := stem + ext;
    assert Basename(s) == s;
    assert s[|stem|] == '.';
    var i := LastIndexOfChar(s, '.').value;
    forall j | |stem| < j < |s| ensures s[j] != '.' {
      assert s[j] == ext[1..][j - |stem| - 1];
    }
    forall j | i < j < |s| ensures s[j] != '.' {
      assert s[j] == s[i + 1..][j - i - 1];
    }
    assert i == |stem|;
    assert s[i..] == ext;
  }

  /** A name without any dot has no extension. */
  lemma ExtNameNoDot(s: string)
    requires '.' !in s
    ensures ExtName(s) == ""
  {
    var b := Basename(s);
    forall k | 0 <= k < |b| ensures b[k] != '.' {
      assert s[|s| - |b| + k] == b[k];
    }
  }

  // ---------------------------------------------------------------------
  // stored file names

  /** The characters a stored stem keeps: ASCII letters and digits, the
      precomposed Hangul syllables, `_` and `-`. */
  predicate IsSafeChar(c: char)
  {
    || 'a' <= c <= 'z' || 'A' <= c <= 'Z' || '0' <= c <= '9'
    || '\U{AC00}' <= c <= '\U{D7A3}' || c == '_' || c == '-'
  }

  function SafeChar(c: char): char
  {
    if IsSafeChar(c) then c else '_'
  }

  /** `.replace(/[^a-zA-Z0-9가-힣_-]/g, '_')`. */
  function SafeChars(s: string): (r: string)
    ensures |r| == |s|
    ensures forall k :: 0 <= k < |s| ==> r[k] == SafeChar(s[k])
  {
    seq(|s|, k requires 0 <= k < |s| => SafeChar(s[k]))
  }

  /** `.substring(0, n)`. */
  function Prefix(s: string, n: nat): (r: string)
    ensures |r| <= n && r <= s
    ensures |s| <= n ==> r == s
  {
    if |s| <= n then s else s[..n]
  }

  /** The stem of a stored name: the first occurrence of the lower-cased
      extension removed, every other character made safe, cut to fifty. */
  function SafeStem(name: string): (stem: string)
    ensures |stem| <= StemLimit
    ensures forall k :: 0 <= k < |stem| ==> IsSafeChar(stem[k])
  {
    Prefix(SafeChars(ReplaceFirst(name, ToLower(ExtName(name)), "")), StemLimit)
  }

  /** `sanitizeFilename`: stem, `_`, a random hex hash (a parameter here) and
      the lower-cased extension. */
  function SanitizeFilename(name: string, hash: string): (r: string)
    ensures |r| <= StemLimit + 1 + |hash| + |ExtName(name)|
  {
    SafeStem(name) + "_" + hash + ToLower(ExtName(name))
  }

  /** A stored name holds a separator only when the hash does: whatever the
      client sent, it cannot name another directory. */
  lemma SanitizeHasNoSeparator(name: string, hash: string)
    requires '/' !in hash
    ensures '/' !in SanitizeFilename(name, hash)
  {
    var stem := SafeStem(name);
    LowerExtShape(ExtName(name));
    forall k | 0 <= k < |stem| ensures stem[k] != '/' {
      assert IsSafeChar(stem[k]);
    }
    assert SanitizeFilename(name, hash) == stem + "_" + hash + ToLower(ExtName(name));
  }

  /** Lower-casing keeps the shape of an extension. */
  lemma LowerExtShape(e: string)
    requires e == "" || (e[0] == '.' && '.' !in e[1..])
    requires '/' !in e
    ensures var l := ToLower(e); |l| == |e| && '/' !in l
    ensures var l := ToLower(e); l == "" || (l[0] == '.' && '.' !in l[1..])
  {
    var l := ToLower(e);
    forall k | 0 <= k < |l| ensures l[k] != '/' && (k > 0 ==> l[k] != '.') {
      assert l[k] == LowerChar(e[k]);
      assert k > 0 ==> e[k] == e[1..][k - 1];
    }
  }

  /** Sanitizing keeps the extension, lower-cased: the stored name's
      extension is the one the filter looked at. */
  lemma SanitizeKeepsExtension(name: string, hash: string)
    requires |hash| > 0 && forall k :: 0 <= k < |hash| ==> IsHexDigit(hash[k])
    ensures ExtName(SanitizeFilename(name, hash)) == ToLower(ExtName(name))
  {
    var ext := ToLower(ExtName(name));
    LowerExtShape(ExtName(name));
    var head := SafeStem(name) + "_" + hash;
    assert '.' !in head && '/' !in head by {
      forall k | 0 <= k < |head| ensures head[k] != '.' && head[k] != '/' {
        if k < |SafeStem(name)| { assert IsSafeChar(head[k]); }
        else if k > |SafeStem(name)| { assert IsHexDigit(hash[k - |SafeStem(name)| - 1]); }
      }
    }
    assert SanitizeFilename(name, hash) == head + ext;
    if ext == "" {
      assert head + ext == head;
      ExtNameNoDot(head);
    } else {
      assert head + ext != "..";
      ExtNameOf(head, ext);
    }
  }

  /** Lower-casing leaves a string without upper-case ASCII letters as it is. */
  lemma LowerKeeps(e: string)
    requires forall k :: 0 <= k < |e| ==> !('A' <= e[k] <= 'Z')
    ensures ToLower(e) == e
  {
  }

  /** The allowed extensions: one leading dot, already lower-case, and short. */
  lemma AllowedExtShape(ext: string)
    requires ext in AllowedExts
    ensures 2 <= |ext| <= 5 && ext[0] == '.' && '.' !in ext[1..] && '/' !in ext
    ensures ToLower(ext) == ext
  {
    LowerKeeps(ext);
  }

  /** A pattern whose first character the text before it lacks occurs first
      right after that text. */
  lemma FirstOccurrenceAfter(base: string, pat: string)
    requires |pat| > 0 && pat[0] !in base
    ensures IndexOf(base + pat, pat) == Some(|base|)
  {
    var name := base + pat;
    assert name[|base|..|base| + |pat|] == pat;
    assert OccursAt(name, pat, |base|);
    var r := IndexOf(name, pat).value;
    assert name[r..r + |pat|][0] == name[r];
  }

  /** A name that is already clean, with an allowed extension, is stored
      under its own stem. */
  lemma CleanNameKept(base: string, ext: string, hash: string)
    requires 0 < |base| <= StemLimit && forall k :: 0 <= k < |base| ==> IsSafeChar(base[k])
    requires ext in AllowedExts
    ensures SanitizeFilename(base + ext, hash) == base + "_" + hash + ext
  {
    AllowedExtShape(ext);
    SafeHasNoDot(base);
    ExtNameOf(base, ext);
    FirstOccurrenceAfter(base, ext);
    RemoveTail(base, ext);
    SafeCharsKeep(base);
  }

  lemma SafeHasNoDot(base: string)
    requires forall k :: 0 <= k < |base| ==> IsSafeChar(base[k])
    ensures '/' !in base && '.' !in base
  {
    forall k | 0 <= k < |base| ensures base[k] != '/' && base[k] != '.' {
      assert IsSafeChar(base[k]);
    }
  }

  lemma SafeCharsKeep(base: string)
    requires forall k :: 0 <= k < |base| ==> IsSafeChar(base[k])
    ensures SafeChars(base) == base
  {
  }

  /** Removing a pattern found right after `base` leaves `base`. */
  lemma RemoveTail(base: string, pat: string)
    requires IndexOf(base + pat, pat) == Some(|base|)
    ensures ReplaceFirst(base + pat, pat, "") == base
  {
    var name := base + pat;
    assert name[..|base|] == base && name[|base| + |pat|..] == "";
  }

  /** The extension is removed only in its lower-cased spelling: an upper-case
      extension stays in the stem, its dot made safe; `photo.JPG` is stored
      as `photo_JPG_<hash>.jpg`. */
  lemma UpperCaseExtensionStays(base: string, upper: string, hash: string)
    requires 0 < |base| && |base| + 1 + |upper| <= StemLimit
    requires forall k :: 0 <= k < |base| ==> IsSafeChar(base[k])
    requires 0 < |upper| && forall k :: 0 <= k < |upper| ==> 'A' <= upper[k] <= 'Z'
    ensures SanitizeFilename(base + "." + upper, hash) == (base + "_" + upper) + "_" + hash + ("." + ToLower(upper))
  {
    SafeHasNoDot(base);
    UpperExtName(base, upper);
    UpperStem(base, upper);
    LowerDot(upper);
  }

  lemma UpperExtName(base: string, upper: string)
    requires 0 < |base| && '/' !in base
    requires 0 < |upper| && forall k :: 0 <= k < |upper| ==> 'A' <= upper[k] <= 'Z'
    ensures ExtName(base + "." + upper) == "." + upper
  {
    var ext := "." + upper;
    forall k | 0 <= k < |ext| ensures ext[k] != '/' && (k > 0 ==> ext[k] != '.') {
      assert k > 0 ==> ext[k] == upper[k - 1];
    }
    assert base + "." + upper == base + ext;
    ExtNameOf(base, ext);
  }

  lemma UpperStem(base: string, upper: string)
    requires 0 < |base| && |base| + 1 + |upper| <= StemLimit
    requires forall k :: 0 <= k < |base| ==> IsSafeChar(base[k])
    requires 0 < |upper| && forall k :: 0 <= k < |upper| ==> 'A' <= upper[k] <= 'Z'
    requires ExtName(base + "." + upper) == "." + upper
    requires '.' !in base
    ensures SafeStem(base + "." + upper) == base + "_" + upper
  {
    var name := base + "." + upper;
    UpperExtNotFound(base, upper);
    assert ReplaceFirst(name, ToLower("." + upper), "") == name;
    UpperStemSafe(base, upper);
  }

  lemma LowerDot(e: string)
    ensures ToLower("." + e) == "." + ToLower(e)
  {
  }

  /** The lower-cased spelling of an upper-case extension does not occur in
      the name. */
  lemma UpperExtNotFound(base: string, upper: string)
    requires '.' !in base
    requires 0 < |upper| && forall k :: 0 <= k < |upper| ==> 'A' <= upper[k] <= 'Z'
    ensures IndexOf(base + "." + upper, ToLower("." + upper)) == None
  {
    var name := base + "." + upper;
    var low := ToLower("." + upper);
    assert |low| >= 2 && low[0] == '.' && low[1] == LowerChar(upper[0]);
    forall j | 0 <= j ensures !OccursAt(name, low, j) {
      if j + |low| <= |name| {
        assert name[j..j + |low|][0] == name[j];
        assert name[j..j + |low|][1] == name[j + 1];
        assert j < |base| ==> name[j] == base[j];
      }
    }
  }

  lemma UpperStemSafe(base: string, upper: string)
    requires forall k :: 0 <= k < |base| ==> IsSafeChar(base[k])
    requires forall k :: 0 <= k < |upper| ==> 'A' <= upper[k] <= 'Z'
    ensures SafeChars(base + "." + upper) == base + "_" + upper
  {
    var name := base + "." + upper;
    forall k | 0 <= k < |name| ensures SafeChars(name)[k] == (base + "_" + upper)[k] {
      if k < |base| { assert IsSafeChar(base[k]); }
      else if k > |base| { assert name[k] == upper[k - |base| - 1]; }
    }
  }

  // ---------------------------------------------------------------------
  // the type filter

  datatype FilterVerdict = Accepted | Refused(message: Message)

  /** `fileFilter`: the declared MIME type first, then the lower-cased
      extension of the client's name. */
  function FileFilter(mime: string, originalName: string): (r: FilterVerdict)
    ensures r.Accepted? <==> mime in AllowedImageTypes && ToLower(ExtName(originalName)) in AllowedExts
    ensures mime !in AllowedImageTypes ==> r == Refused(FileTypeNotAllowed(mime))
    ensures mime in AllowedImageTypes && r.Refused? ==>
      r.message == FileExtensionNotAllowed(ToLower(ExtName(originalName)))
  {
    if mime !in AllowedImageTypes then Refused(FileTypeNotAllowed(mime))
    else
      var ext := ToLower(ExtName(originalName));
      if ext !in AllowedExts then Refused(FileExtensionNotAllowed(ext)) else Accepted
  }

  /** Only the last extension counts: `shell.php.jpg` passes as a JPEG
      picture and `shell.jpg.php` is refused. */
  lemma OnlyLastExtensionCounts(head: string, ext: string, mime: string)
    requires |head| > 0 && '/' !in head + ext
    requires |ext| >= 2 && ext[0] == '.' && '.' !in ext[1..]
    ensures FileFilter(mime, head + ext).Accepted? <==> mime in AllowedImageTypes && ToLower(ext) in AllowedExts
  {
    ExtNameOf(head, ext);
  }

  /** A file the filter lets through is stored under a name without a
      separator whose extension is an allowed one. */
  lemma AcceptedFileStoredAsImage(mime: string, name: string, hash: string)
    requires FileFilter(mime, name) == Accepted
    requires |hash| > 0 && forall k :: 0 <= k < |hash| ==> IsHexDigit(hash[k])
    ensures ExtName(SanitizeFilename(name, hash)) in AllowedExts
    ensures '/' !in SanitizeFilename(name, hash)
  {
    assert ToLower(ExtName(name)) in AllowedExts;
    SanitizeKeepsExtension(name, hash);
    HexHasNoSeparator(hash);
    SanitizeHasNoSeparator(name, hash);
  }

  lemma HexHasNoSeparator(hash: string)
    requires forall k :: 0 <= k < |hash| ==> IsHexDigit(hash[k])
    ensures '/' !in hash
  {
    forall k | 0 <= k < |hash| ensures hash[k] != '/' { assert IsHexDigit(hash[k]); }
  }

  // ---------------------------------------------------------------------
  // normalised paths

  predicate IsAbsolute(p: string)
  {
    |p| > 0 && p[0] == '/'
  }

  /** One segment of `path.normalize`: empty and `.` segments vanish, `..`
      removes the segment before it, and a `..` with nothing to remove is kept
      in a relative path and dropped at the root of an absolute one. */
  function Step(acc: seq<string>, seg: string, absolute: bool): seq<string>
  {
    if seg == "" || seg == "." then acc
    else if seg == ".." then
      if |acc| > 0 && acc[|acc| - 1] != ".." then acc[..|acc| - 1]
      else if absolute then acc
      else acc + [".."]
    else acc + [seg]
  }

  function Resolve(acc: seq<string>, parts: seq<string>, absolute: bool): seq<string>
    decreases |parts|
  {
    if |parts| == 0 then acc else Resolve(Step(acc, parts[0], absolute), parts[1..], absolute)
  }

  /** What resolved segments look like: non-empty, separator-free, never `.`,
      and `..` only in a leading run of a relative path. */
  predicate Canonical(segs: seq<string>, absolute: bool)
  {
    && (forall i :: 0 <= i < |segs| ==> segs[i] != "" && segs[i] != "." && '/' !in segs[i])
    && (forall i :: 0 <= i < |segs| && segs[i] == ".." ==>
          !absolute && forall j :: 0 <= j < i ==> segs[j] == "..")
  }

  lemma StepCanonical(acc: seq<string>, seg: string, absolute: bool)
    requires Canonical(acc, absolute) && '/' !in seg
    ensures Canonical(Step(acc, seg, absolute), absolute)
  {
    var r := Step(acc, seg, absolute);
    if seg != "" && seg != "." && seg == ".." && !(|acc| > 0 && acc[|acc| - 1] != "..") && !absolute {
      assert |acc| > 0 ==> acc[|acc| - 1] == "..";
    }
  }

  lemma {:induction false} ResolveCanonical(acc: seq<string>, parts: seq<string>, absolute: bool)
    requires Canonical(acc, absolute)
    requires forall k :: 0 <= k < |parts| ==> '/' !in parts[k]
    ensures Canonical(Resolve(acc, parts, absolute), absolute)
    decreases |parts|
  {
    if |parts| > 0 {
      StepCanonical(acc, parts[0], absolute);
      ResolveCanonical(Step(acc, parts[0], absolute), parts[1..], absolute);
    }
  }

  /** The resolved segments of a path. */
  function Segments(p: string): (segs: seq<string>)
    ensures Canonical(segs, IsAbsolute(p))
  {
    ResolveCanonical([], Split(p, '/'), IsAbsolute(p));
    Resolve([], Split(p, '/'), IsAbsolute(p))
  }

  /** `path.normalize` on POSIX paths. */
  function Normalize(p: string): (n: string)
    ensures |n| > 0 && (n[0] == '/' <==> IsAbsolute(p))
  {
    if p == "" then "."
    else
      var segs := Segments(p);
      var trailing := p[|p| - 1] == '/';
      assert |segs| > 0 ==> Join(segs, '/')[0] == segs[0][0] != '/' by {
        if |segs| > 0 { JoinFirst(segs); }
      }
      if |segs| == 0 then (if IsAbsolute(p) then "/" else if trailing then "./" else ".")
      else (if IsAbsolute(p) then "/" else "") + Join(segs, '/') + (if trailing then "/" else "")
  }

  // ---------------------------------------------------------------------
  // joined segments

  lemma {:induction false} JoinAppend(a: seq<string>, b: seq<string>)
    requires |a| > 0 && |b| > 0
    ensures Join(a + b, '/') == Join(a, '/') + "/" + Join(b, '/')
    decreases |a|
  {
    if |a| == 1 {
      assert (a + b)[1..] == b;
    } else {
      JoinAppend(a[1..], b);
      assert (a + b)[1..] == a[1..] + b;
    }
  }

  lemma JoinFirst(segs: seq<string>)
    requires |segs| > 0 && |segs[0]| > 0
    ensures |Join(segs, '/')| > 0 && Join(segs, '/')[0] == segs[0][0]
  {
  }

  /** Two separator-free heads, each followed by a separator, line up. */
  lemma SlashSplit(x: string, y: string, u: string, v: string)
    requires '/' !in x && '/' !in u
    requires x + "/" + y <= u + "/" + v
    ensures x == u && y <= v
  {
    var l := x + "/" + y;
    var m := u + "/" + v;
    var k := if |x| <= |u| then |x| else |u|;
    assert l[k] == m[k];
    assert l[|x|] == '/' && m[|u|] == '/';
    assert x == l[..|x|] && u == m[..|u|];
    assert y == l[|x| + 1..] && v == m[|u| + 1..];
  }

  /** A joined path that starts with another joined path and a separator
      starts with its segments. */
  lemma {:induction false} JoinPrefix(d: seq<string>, p: seq<string>, t: string)
    requires |d| > 0 && |p| > 0 && (t == "" || t == "/")
    requires forall k :: 0 <= k < |d| ==> '/' !in d[k]
    requires forall k :: 0 <= k < |p| ==> '/' !in p[k]
    requires Join(d, '/') + "/" <= Join(p, '/') + t
    ensures |d| <= |p| && p[..|d|] == d
    decreases |d|
  {
    var y := if |d| == 1 then "" else Join(d[1..], '/') + "/";
    assert Join(d, '/') + "/" == d[0] + "/" + y;
    if |p| == 1 {
      assert (Join(p, '/') + t)[|d[0]|] == '/';
      if t == "/" {
        SlashSplit(d[0], y, p[0], "");
        assert |d| == 1;
      }
    } else {
      var v := Join(p[1..], '/') + t;
      assert Join(p, '/') + t == p[0] + "/" + v;
      SlashSplit(d[0], y, p[0], v);
      if |d| > 1 {
        JoinPrefix(d[1..], p[1..], t);
        assert d == [d[0]] + d[1..] && p[..|d|] == [p[0]] + p[1..][..|d| - 1];
      }
    }
  }

  // ---------------------------------------------------------------------
  // the delete guard

  /** The path lies in the directory: on the same side of the root, the
      directory's segments begin the path's. */
  predicate Inside(path: string, dir: string)
  {
    && IsAbsolute(path) == IsAbsolute(dir)
    && |Segments(dir)| <= |Segments(path)|
    && Segments(path)[..|Segments(dir)|] == Segments(dir)
  }

  /** `deleteFile`'s guard as written: the normalised path starts with the
      normalised directory, as a string. */
  predicate DeleteGuardAsWritten(path: string, dir: string)
  {
    StartsWith(Normalize(path), Normalize(dir))
  }

  /** `deleteFile` as written: true only when the guard passes and the unlink
      (a parameter) succeeds, false on every error. */
  function DeleteFileAsWritten(path: string, dir: string, unlinked: bool): (ok: bool)
    ensures ok ==> DeleteGuardAsWritten(path, dir)
    ensures DeleteGuardAsWritten(path, dir) ==> ok == unlinked
  {
    DeleteGuardAsWritten(path, dir) && unlinked
  }

  /** A plain path segment: non-empty, separator-free, neither `.` nor `..`. */
  predicate IsSegment(x: string)
  {
    x != "" && x != "." && x != ".." && '/' !in x
  }

  /** Two plain segments joined by a separator resolve to themselves. */
  lemma TwoSegments(a: string, b: string)
    requires IsSegment(a) && IsSegment(b)
    ensures Segments(a + "/" + b) == [a, b]
    ensures Normalize(a + "/" + b) == a + "/" + b
  {
    var p := a + "/" + b;
    assert p == Join([a, b], '/');
    SplitJoin([a, b], '/');
    assert [a, b][1..] == [b] && [a, b][0] == a;
    assert Step([], a, false) == [a];
    assert Step([a], b, false) == [a, b];
    assert Resolve([], [a, b], false) == Resolve([a], [b], false);
    assert Resolve([a], [b], false) == Resolve([a, b], [], false);
    assert p[0] == a[0] && p[|p| - 1] == b[|b| - 1];
  }

  /** `./dir` resolves to `dir`. */
  lemma DotSegment(dir: string)
    requires IsSegment(dir)
    ensures Segments("./" + dir) == [dir]
    ensures Normalize("./" + dir) == dir
  {
    var p := "./" + dir;
    assert p == Join([".", dir], '/');
    SplitJoin([".", dir], '/');
    assert [".", dir][1..] == [dir];
    assert Resolve([], [".", dir], false) == Resolve([], [dir], false);
    assert Resolve([], [dir], false) == Resolve([dir], [], false);
    assert p[|p| - 1] == dir[|dir| - 1];
  }

  /** The guard as written lets a sibling directory through: any directory
      whose name extends the upload directory's, such as `uploads-old` next
      to the default `./uploads`, passes. */
  lemma AsWrittenAdmitsSibling(dir: string, more: string, file: string)
    requires IsSegment(dir) && IsSegment(file) && |more| > 0 && '/' !in more
    ensures DeleteGuardAsWritten(dir + more + "/" + file, "./" + dir)
    ensures !Inside(dir + more + "/" + file, "./" + dir)
  {
    var sibling := dir + more;
    assert '/' !in sibling;
    assert sibling != ".." by {
      assert sibling[..|dir|] == dir && |sibling| > |dir|;
    }
    TwoSegments(sibling, file);
    DotSegment(dir);
    assert dir <= sibling + "/" + file;
    assert [sibling, file][..1] != [dir];
  }

  /** The normalised directory with one trailing separator. */
  function DirPrefix(dir: string): (pre: string)
    ensures |pre| > 0 && pre[|pre| - 1] == '/'
  {
    (if IsAbsolute(dir) then "/" else "") + Join(Segments(dir), '/') + "/"
  }

  lemma DirPrefixShape(dir: string)
    ensures DirPrefix(dir) == (if IsAbsolute(dir) then "/" else "") + (Join(Segments(dir), '/') + "/")
  {
    var a := if IsAbsolute(dir) then "/" else "";
    var j := Join(Segments(dir), '/');
    assert a + j + "/" == a + (j + "/");
  }

  /** The guard as intended: the normalised path starts with the directory
      and a separator. */
  predicate DeleteGuard(path: string, dir: string)
  {
    StartsWith(Normalize(path), DirPrefix(dir))
  }

  function DeleteFile(path: string, dir: string, unlinked: bool): (ok: bool)
    ensures ok ==> DeleteGuard(path, dir)
    ensures DeleteGuard(path, dir) ==> ok == unlinked
  {
    DeleteGuard(path, dir) && unlinked
  }

  /** A directory prefix that does not climb is never met by a path with
      no segments (`.`, `./` or `/`). */
  lemma GuardNeedsSegments(path: string, dir: string)
    requires |Segments(dir)| > 0 && ".." !in Segments(dir)
    ensures DeleteGuard(path, dir) ==> |Segments(path)| > 0
  {
    var d := Segments(dir);
    if |Segments(path)| == 0 {
      var pre := DirPrefix(dir);
      var n := Normalize(path);
      var a := if IsAbsolute(dir) then "/" else "";
      assert d[0] != ".." && d[0] != "." && |d[0]| > 0 && '/' !in d[0];
      JoinFirst(d);
      DirPrefixShape(dir);
      assert |pre| >= 2;
      if n == "/" {
        assert IsAbsolute(dir) ==> |pre| >= 3;
        assert !IsAbsolute(dir) ==> pre[0] == d[0][0];
      } else if n == "./" {
        assert IsAbsolute(dir) ==> pre[0] == '/';
        assert |d[0]| == 1 || d[0][1] != '/';
        assert !IsAbsolute(dir) ==> pre[0] == d[0][0] && pre[1] == (if |d[0]| == 1 then '/' else d[0][1]);
      }
      assert !(pre <= n);
    }
  }

  /** The shape of a normalised path with segments. */
  lemma NormalizeShape(path: string)
    requires |Segments(path)| > 0
    ensures Normalize(path) == (if IsAbsolute(path) then "/" else "")
      + (Join(Segments(path), '/') + (if path[|path| - 1] == '/' then "/" else ""))
  {
  }

  /** A path that passes the intended guard is on the directory's side of
      the root and its joined segments start with the directory's and a
      separator. */
  lemma GuardShape(path: string, dir: string)
    requires |Segments(dir)| > 0 && ".." !in Segments(dir) && |Segments(path)| > 0
    ensures DeleteGuard(path, dir) ==> IsAbsolute(dir) == IsAbsolute(path)
    ensures DeleteGuard(path, dir) ==>
              Join(Segments(dir), '/') + "/" <= Join(Segments(path), '/') + (if path[|path| - 1] == '/' then "/" else "")
  {
    var d := Segments(dir);
    var p := Segments(path);
    var a := if IsAbsolute(dir) then "/" else "";
    var b := if IsAbsolute(path) then "/" else "";
    var t := if path[|path| - 1] == '/' then "/" else "";
    var pre := DirPrefix(dir);
    var n := Normalize(path);
    NormalizeShape(path);
    JoinFirst(d);
    JoinFirst(p);
    DirPrefixShape(dir);
    assert p[0][0] != '/' && d[0][0] != '/';
    assert pre[0] == '/' <==> IsAbsolute(dir);
    assert n[0] == '/' <==> IsAbsolute(path);
    if IsAbsolute(dir) == IsAbsolute(path) && pre <= n {
      assert a == b;
      assert (Join(d, '/') + "/") == pre[|a|..];
      assert Join(p, '/') + t == n[|a|..];
    }
  }

  /** For an upload directory that does not climb (`..`-free, not the root
      or `.`), every path the intended guard passes lies in the directory
      and never climbs. */
  lemma DeleteGuardMeansInside(path: string, dir: string)
    requires |Segments(dir)| > 0 && ".." !in Segments(dir)
    ensures DeleteGuard(path, dir) ==> Inside(path, dir) && ".." !in Segments(path)
  {
    GuardNeedsSegments(path, dir);
    if DeleteGuard(path, dir) {
      var d := Segments(dir);
      var p := Segments(path);
      GuardShape(path, dir);
      var t := if path[|path| - 1] == '/' then "/" else "";
      JoinPrefix(d, p, t);
      assert p[0] == d[0] && d[0] != "..";
    }
  }

  /** Every path strictly below a directory passes the intended guard. */
  lemma InsideMeansGuard(path: string, dir: string)
    requires |Segments(dir)| > 0
    ensures Inside(path, dir) && |Segments(dir)| < |Segments(path)| ==> DeleteGuard(path, dir)
  {
    var d := Segments(dir);
    var p := Segments(path);
    if Inside(path, dir) && |d| < |p| {
      var rest := p[|d|..];
      assert p == d + rest;
      JoinAppend(d, rest);
      NormalizeShape(path);
      DirPrefixShape(dir);
      PrefixOfJoined(if IsAbsolute(path) then "/" else "", Join(d, '/'), Join(rest, '/'),
                     if path[|path| - 1] == '/' then "/" else "");
    }
  }

  lemma PrefixOfJoined(a: string, head: string, rest: string, t: string)
    ensures a + (head + "/") <= a + (head + "/" + rest + t)
  {
    var pre := a + (head + "/");
    assert a + (head + "/" + rest + t) == pre + (rest + t);
    assert (pre + (rest + t))[..|pre|] == pre;
  }

  /** The intended guard is stricter than the written one. */
  lemma DeleteGuardStricter(path: string, dir: string)
    requires |Segments(dir)| > 0 && DeleteGuard(path, dir)
    requires dir[|dir| - 1] != '/'
    ensures DeleteGuardAsWritten(path, dir)
  {
    var d := Segments(dir);
    var a := if IsAbsolute(dir) then "/" else "";
    assert Normalize(dir) == a + Join(d, '/');
    assert DirPrefix(dir) == Normalize(dir) + "/";
  }

  // ---------------------------------------------------------------------
  // upload errors

  /** What reaches the upload error handler: a multer error with its code and
      message, or an error raised by the file filter. */
  datatype UploadError = MulterError(code: string, detail: string) | FilterError(message: Message)

  /** `handleUploadError`: every error is a 400; the size and count limits
      have their own messages; no error passes control on. */
  function HandleUploadError(err: Option<UploadError>, env: Option<string>): (r: Outcome)
    ensures r.Next? <==> err.None?
    ensures r.Halt? ==> r.reply.status == 400
    ensures forall detail :: err == Some(MulterError("LIMIT_FILE_SIZE", detail)) ==>
      r.reply.message == UploadTooLarge(MaxFileSize(env))
    ensures forall detail :: err == Some(MulterError("LIMIT_FILE_COUNT", detail)) ==>
      r.reply.message == TooManyFiles
    ensures err.Some? && err.value.MulterError? && err.value.code !in ["LIMIT_FILE_SIZE", "LIMIT_FILE_COUNT"] ==>
      r.reply.message == UploadFailed(err.value.detail)
    ensures err.Some? && err.value.FilterError? ==> r.reply.message == err.value.message
  {
    match err
    case None => Next
    case Some(MulterError(code, detail)) =>
      if code == "LIMIT_FILE_SIZE" then Halt(Reply(400, UploadTooLarge(MaxFileSize(env))))
      else if code == "LIMIT_FILE_COUNT" then Halt(Reply(400, TooManyFiles))
      else Halt(Reply(400, UploadFailed(detail)))
    case Some(FilterError(m)) => Halt(Reply(400, m))
  }

  /** A file the filter refuses is answered with 400 and the filter's own
      message. */
  lemma FilterRefusalAnswered(mime: string, name: string, env: Option<string>)
    requires FileFilter(mime, name).Refused?
    ensures HandleUploadError(Some(FilterError(FileFilter(mime, name).message)), env)
      == Halt(Reply(400, FileFilter(mime, name).message))
  {
  }
}
