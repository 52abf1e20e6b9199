/**
 * The two POSIX `path` helpers the asset model uses to name files:
 * `basename` (the last segment) and `extname` (the extension of that
 * segment, dot included). The functions only compute; what they compute
 * is stated by the lemmas after each of them.
 */
module NodePath {
  import opened Options
  import opened JsString

  /** `p` with every trailing '/' removed. */
  function TrimTrailingSlashes(p: string): string
  {
    if p != "" && p[|p| - 1] == '/' then TrimTrailingSlashes(p[..|p| - 1]) else p
  }

  /** Trimming keeps a prefix, drops only slashes, and leaves no slash at the end. */
  lemma {:induction false} TrimTrailingSlashesFacts(p: string)
    ensures var r := TrimTrailingSlashes(p);
            |r| <= |p| && r == p[..|r|] &&
            (r == "" || r[|r| - 1] != '/') &&
            forall k :: |r| <= k < |p| ==> p[k] == '/'
    decreases |p|
  {
    if p != "" && p[|p| - 1] == '/' {
      TrimTrailingSlashesFacts(p[..|p| - 1]);
    }
  }

  /** The text after the last '/' of `p` (all of `p` when it has none). */
  function AfterLastSlash(p: string): string
  {
    if p == "" || p[|p| - 1] == '/' then ""
    else AfterLastSlash(p[..|p| - 1]) + [p[|p| - 1]]
  }

  /** The piece after the last slash is a slash-free suffix that starts the string or follows a '/'. */
  lemma {:induction false} AfterLastSlashFacts(p: string)
    ensures var r := AfterLastSlash(p);
            IsSuffix(r, p) && '/' !in r && (|r| == |p| || p[|p| - |r| - 1] == '/')
    decreases |p|
  {
    if p != "" && p[|p| - 1] != '/' {
      var q := p[..|p| - 1];
      var r := AfterLastSlash(q);
      AfterLastSlashFacts(q);
      assert q[|q| - |r|..] == r;
      assert p[|p| - |r| - 1..] == q[|q| - |r|..] + [p[|p| - 1]];
    }
  }

  /**
   * `path.basename(p)`: the last segment once trailing slashes are ignored;
   * the empty string for "" and for a path made only of slashes.
   */
  function Basename(p: string): string
  {
    AfterLastSlash(TrimTrailingSlashes(p))
  }

  /**
   * The basename holds no '/', ends the trimmed path, and is either all of
   * it or directly follows its last '/'.
   */
  lemma BasenameFacts(p: string)
    ensures var t, b := TrimTrailingSlashes(p), Basename(p);
            '/' !in b && IsSuffix(b, t) && (b == t || t[|t| - |b| - 1] == '/')
  {
    AfterLastSlashFacts(TrimTrailingSlashes(p));
  }

  /** The index of the last `c` in `s`. */
  function LastIndexOfChar(s: string, c: char): (r: Option<nat>)
    ensures r.Some? ==> r.value < |s|
  {
    if s == "" then None
    else if s[|s| - 1] == c then Some(|s| - 1)
    else LastIndexOfChar(s[..|s| - 1], c)
  }

  /** The index found holds `c` and no later index does; none is found only when `c` is absent. */
  lemma {:induction false} LastIndexOfCharFacts(s: string, c: char)
    ensures var r := LastIndexOfChar(s, c);
            (r.Some? ==> s[r.value] == c && c !in s[r.value + 1..]) &&
            (r.None? ==> c !in s)
    decreases |s|
  {
    if s != "" && s[|s| - 1] != c {
      var q := s[..|s| - 1];
      LastIndexOfCharFacts(q, c);
      var r := LastIndexOfChar(q, c);
      if r.Some? {
        assert s[r.value + 1..] == q[r.value + 1..] + [s[|s| - 1]];
      } else {
        assert s == q + [s[|s| - 1]];
      }
    }
  }

  /**
   * `path.extname(p)`: from the last '.' of the basename to its end, or the
   * empty string when the basename has no '.', when its only '.' is its
   * first character (".profile"), or when the basename is "..".
   */
  function Extname(p: string): string
  {
    var b := Basename(p);
    match LastIndexOfChar(b, '.')
    case None => ""
    case Some(d) => if d == 0 || b == ".." then "" else b[d..]
  }

  /**
   * The extension is empty or a '.' followed by dot-free text; it ends the
   * basename; and it is empty exactly in the three cases `extname` names.
   */
  lemma ExtnameFacts(p: string)
    ensures var e, b := Extname(p), Basename(p);
            (e == "" || (e[0] == '.' && '.' !in e[1..])) &&
            IsSuffix(e, b) &&
            (e == "" <==> '.' !in b || (b[0] == '.' && '.' !in b[1..]) || b == "..")
  {
    var b := Basename(p);
    LastIndexOfCharFacts(b, '.');
    match LastIndexOfChar(b, '.')
    case None =>
    case Some(d) =>
      if d != 0 && b != ".." {
        assert b[d] in b[1..] by { assert b[1..][d - 1] == b[d]; }
        assert b[d..][1..] == b[d + 1..];
      } else if d == 0 {
        assert b[1..] == b[d + 1..];
      }
  }
}
