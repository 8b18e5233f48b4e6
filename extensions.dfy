/**
 * The extension key of file_organizer.py:19:
 * `os.path.splitext(fname)[1].lower().strip('.') or "no_ext"`, for a name without separators.
 */
module Extensions {
  import opened Wrappers
  import opened Text

  const NoExt := "no_ext"

  predicate DotFree(s: string) {
    forall j :: 0 <= j < |s| ==> s[j] != '.'
  }

  /** The position of the last '.', if any. */
  function LastDot(s: string): (r: Option<nat>)
    ensures r.None? <==> '.' !in s
    ensures r.Some? ==> r.value < |s| && s[r.value] == '.' && DotFree(s[r.value + 1..])
  {
    if s == [] then None
    else if s[|s| - 1] == '.' then Some(|s| - 1)
    else
      assert s == s[..|s| - 1] + [s[|s| - 1]];
      LastDot(s[..|s| - 1])
  }

  /** Some character other than '.' comes before position i. */
  predicate NonDotBefore(s: string, i: nat)
    requires i <= |s|
  {
    exists j :: 0 <= j < i && s[j] != '.'
  }

  /**
   * `os.path.splitext(name)[1]`: from the last dot on, unless every character before that
   * dot is a dot too (a leading-dot name such as ".bashrc" has no extension).
   */
  function Extension(name: string): (ext: string)
    ensures ext == "" || (ext[0] == '.' && DotFree(ext[1..]))
    ensures |ext| <= |name| && name[|name| - |ext|..] == ext
  {
    match LastDot(name)
    case None => ""
    case Some(i) => if NonDotBefore(name, i) then name[i..] else ""
  }

  /** There is an extension exactly when some dot has a character other than a dot before it. */
  lemma ExtensionIff(name: string)
    ensures Extension(name) != "" <==> exists i :: 0 <= i < |name| && name[i] == '.' && NonDotBefore(name, i)
  {
    var last := LastDot(name);
    if exists i :: 0 <= i < |name| && name[i] == '.' && NonDotBefore(name, i) {
      var i :| 0 <= i < |name| && name[i] == '.' && NonDotBefore(name, i);
      assert name[i] in name;
      var l := last.value;
      forall m | l < m < |name| ensures name[m] != '.' {
        assert name[l + 1..][m - l - 1] == name[m];
      }
      var j :| 0 <= j < i && name[j] != '.';
      assert j < l;
    }
  }

  /** Leading dots removed: a suffix of s, with only dots before it. */
  function StripLeadingDots(s: string): (r: string)
    ensures r == "" || r[0] != '.'
    ensures |r| <= |s| && r == s[|s| - |r|..]
    ensures forall k :: 0 <= k < |s| - |r| ==> s[k] == '.'
  {
    if s != [] && s[0] == '.' then StripLeadingDots(s[1..]) else s
  }

  /** Trailing dots removed: a prefix of s, with only dots after it. */
  function StripTrailingDots(s: string): (r: string)
    ensures r == "" || r[|r| - 1] != '.'
    ensures |r| <= |s| && r == s[..|r|]
    ensures forall k :: |r| <= k < |s| ==> s[k] == '.'
  {
    if s != [] && s[|s| - 1] == '.' then StripTrailingDots(s[..|s| - 1]) else s
  }

  /** Dropping trailing dots keeps the first character of what remains. */
  lemma {:induction false} StripTrailingKeepsFirst(s: string)
    ensures StripTrailingDots(s) == "" || StripTrailingDots(s)[0] == s[0]
  {
    if s != [] && s[|s| - 1] == '.' {
      StripTrailingKeepsFirst(s[..|s| - 1]);
    }
  }

  /** r is s[i..i + |r|], and only dots lie before and after it. */
  predicate StripsTo(s: string, i: nat, r: string) {
    i + |r| <= |s| && r == s[i..i + |r|]
    && (forall k :: 0 <= k < i ==> s[k] == '.')
    && (forall k :: i + |r| <= k < |s| ==> s[k] == '.')
  }

  /** Trailing dots removed after leading dots: the middle run of s, bounded by dots. */
  lemma StripBothEnds(s: string)
    ensures StripsTo(s, |s| - |StripLeadingDots(s)|, StripTrailingDots(StripLeadingDots(s)))
  {
    var lead := StripLeadingDots(s);
    var r := StripTrailingDots(lead);
    var i := |s| - |lead|;
    forall k | i + |r| <= k < |s| ensures s[k] == '.' {
      assert s[k] == lead[k - i];
    }
  }

  /** Stripping both ends leaves nothing exactly when s is all dots. */
  lemma StripEmptyIffDots(s: string)
    ensures StripTrailingDots(StripLeadingDots(s)) == "" <==> forall k :: 0 <= k < |s| ==> s[k] == '.'
  {
    var lead := StripLeadingDots(s);
    var r := StripTrailingDots(lead);
    StripBothEnds(s);
    StripTrailingKeepsFirst(lead);
    if r != "" {
      assert s[|s| - |lead|] == r[0];
    }
  }

  /**
   * `str.strip('.')`: the run of s left once every leading and every trailing dot is
   * removed; empty exactly when s is all dots.
   */
  function StripDots(s: string): (r: string)
    ensures r == "" || (r[0] != '.' && r[|r| - 1] != '.')
    ensures exists i: nat :: StripsTo(s, i, r)
    ensures r == "" <==> forall k :: 0 <= k < |s| ==> s[k] == '.'
  {
    var lead := StripLeadingDots(s);
    StripTrailingKeepsFirst(lead);
    StripBothEnds(s);
    StripEmptyIffDots(s);
    StripTrailingDots(lead)
  }

  lemma LowerKeepsDotFree(s: string)
    requires DotFree(s)
    ensures DotFree(LowerStr(s))
  {
  }

  /** Stripping "." + x, for a dot-free x, leaves x. */
  lemma StripOneDot(x: string)
    requires DotFree(x)
    ensures StripDots("." + x) == x
  {
    assert ("." + x)[1..] == x;
    assert StripLeadingDots("." + x) == StripLeadingDots(x);
    assert x == "" || x[0] != '.';
    assert StripLeadingDots(x) == x;
    assert x == "" || x[|x| - 1] != '.';
    assert StripTrailingDots(x) == x;
  }

  /** Lower-casing then stripping an extension leaves its lower-cased text after the dot. */
  lemma StripExtension(ext: string)
    requires ext == "" || (ext[0] == '.' && DotFree(ext[1..]))
    ensures ext == "" ==> StripDots(LowerStr(ext)) == ""
    ensures ext != "" ==> StripDots(LowerStr(ext)) == LowerStr(ext[1..])
  {
    if ext != "" {
      var rest := ext[1..];
      assert ext == "." + rest;
      assert LowerStr(ext) == "." + LowerStr(rest);
      LowerKeepsDotFree(rest);
      StripOneDot(LowerStr(rest));
    }
  }

  /** `ext.lower().strip('.') or "no_ext"`, for the extension found by splitext, as written. */
  function KeyOfExtension(ext: string): (k: string)
    ensures k != ""
    ensures (forall i :: 0 <= i < |ext| ==> ext[i] == '.') ==> k == NoExt
    ensures k == NoExt || (k[0] != '.' && k[|k| - 1] != '.')
  {
    var stripped := StripDots(LowerStr(ext));
    if stripped == "" then NoExt else stripped
  }

  /**
   * The extension key: the extension without its dot, lower-cased; "no_ext" when there is no
   * extension or it is a lone dot.
   */
  function ExtKey(name: string): (k: string)
    ensures k != ""
  {
    var ext := Extension(name);
    if |ext| <= 1 then NoExt else LowerStr(ext[1..])
  }

  /** The key of a name without separators has none either. */
  lemma ExtKeyNoSlash(name: string)
    requires '/' !in name
    ensures '/' !in ExtKey(name)
  {
    var ext := Extension(name);
    if |ext| > 1 {
      var rest := ext[1..];
      forall i | 0 <= i < |rest| ensures rest[i] != '/' {
        assert rest[i] == name[|name| - |ext| + 1 + i];
        assert name[|name| - |ext| + 1 + i] in name;
      }
    }
  }

  /** ExtKey is the expression of file_organizer.py:19 applied to the name's extension. */
  lemma ExtKeyIsStrippedLowerExtension(name: string)
    ensures ExtKey(name) == KeyOfExtension(Extension(name))
  {
    var ext := Extension(name);
    StripExtension(ext);
    if |ext| > 1 {
      assert LowerStr(ext[1..])[0] == Lower(ext[1]);
    }
  }

  /** The last dot of stem + "." + ext, for a dot-free ext, is the one before ext. */
  lemma {:induction false} LastDotBeforeSuffix(stem: string, ext: string)
    requires DotFree(ext)
    ensures LastDot(stem + "." + ext) == Some(|stem|)
  {
    var s := stem + "." + ext;
    if ext != [] {
      var init := ext[..|ext| - 1];
      assert s[..|s| - 1] == stem + "." + init;
      assert s[|s| - 1] == ext[|ext| - 1];
      LastDotBeforeSuffix(stem, init);
    }
  }

  /**
   * A name whose last dot has something other than a dot (at j) before it and a non-empty
   * tail after it: the key is that tail, lower-cased.
   */
  lemma ExtKeyOfSuffix(stem: string, ext: string, j: nat)
    requires DotFree(ext) && ext != ""
    requires j < |stem| && stem[j] != '.'
    ensures ExtKey(stem + "." + ext) == LowerStr(ext)
  {
    var s := stem + "." + ext;
    LastDotBeforeSuffix(stem, ext);
    assert s[j] == stem[j];
    assert NonDotBefore(s, |stem|);
    var e := Extension(s);
    assert e == s[|stem|..] == "." + ext;
    assert e[1..] == ext;
  }

  /** A plain extension is lower-cased. */
  lemma ExtKeyUpperCase()
    ensures ExtKey("a.TXT") == "txt"
  {
    assert "a.TXT" == "a" + "." + "TXT";
    assert "a"[0] != '.';
    ExtKeyOfSuffix("a", "TXT", 0);
    assert LowerStr("TXT") == "txt";
  }

  /** Only the last extension of a double extension counts. */
  lemma ExtKeyDoubleExtension()
    ensures ExtKey("a.tar.gz") == "gz"
  {
    assert "a.tar.gz" == "a.tar" + "." + "gz";
    assert "a.tar"[0] != '.';
    ExtKeyOfSuffix("a.tar", "gz", 0);
    assert LowerStr("gz") == "gz";
  }

  /** No dot at all: "no_ext". */
  lemma ExtKeyNoDot()
    ensures ExtKey("Makefile") == NoExt
  {
    assert '.' !in "Makefile";
  }

  /** A hidden file's only dot is a leading one: "no_ext". */
  lemma ExtKeyHidden()
    ensures ExtKey(".bashrc") == NoExt
  {
    var h := ".bashrc";
    assert h[0] in h;
    assert forall m :: 0 < m < |h| ==> h[m] != '.';
  }

  /** A trailing dot is a lone-dot extension: "no_ext". */
  lemma ExtKeyTrailingDot()
    ensures ExtKey("a.") == NoExt
  {
    assert LastDot("a.") == Some(1);
    assert NonDotBefore("a.", 1) by { assert "a."[0] != '.'; }
  }
}
