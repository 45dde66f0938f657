/**
 * The string transforms of the release script: bumping the patch number of
 * a version string (`incrementVersion`), and the rewrites of the
 * `APP_VERSION` declaration in common.js and of the `CACHE_NAME` declaration
 * in sw.js, with the file reads and writes taken away.
 *
 * The regular expressions are modelled by a matcher at one position
 * (MatchAt, AppVersionAt, CacheAt) plus a leftmost search, and each matcher
 * is proved equal to a declarative reading of its pattern (MatchesAt,
 * DeclaresAppVersion, DeclaresCache).
 */
module Release {
  import opened Common
  import opened Text

  /** The three captures of `/v(\d+)\.(\d+)\.(\d+)/`. */
  datatype VersionMatch = VersionMatch(major: string, minor: string, patch: string)

  /** `v${major}.${minor}.${patch}`: the text the pattern matched. */
  function Spelling(m: VersionMatch): string
  {
    "v" + m.major + "." + m.minor + "." + m.patch
  }

  /** Each capture is a non-empty run of digits. */
  predicate WellFormed(m: VersionMatch)
  {
    |m.major| > 0 && AllDigits(m.major)
    && |m.minor| > 0 && AllDigits(m.minor)
    && |m.patch| > 0 && AllDigits(m.patch)
  }

  /**
   * The pattern matches `s` at `p` with captures `m`: the greedy last `\d+`
   * takes every digit that follows.
   */
  predicate MatchesAt(s: string, p: nat, m: VersionMatch)
  {
    WellFormed(m)
    && OccursAt(s, p, Spelling(m))
    && (p + |Spelling(m)| == |s| || !IsDigit(s[p + |Spelling(m)|]))
  }

  /** The patch number incremented, printed without leading zeros. */
  function Bump(m: VersionMatch): (b: VersionMatch)
    requires WellFormed(m)
    ensures WellFormed(b)
  {
    m.(patch := ToDecimal(ParseDecimal(m.patch) + 1))
  }

  /** The length of the run of digits that starts at `i`. */
  function DigitRun(s: string, i: nat): (n: nat)
    requires i <= |s|
    ensures i + n <= |s|
    ensures forall k :: i <= k < i + n ==> IsDigit(s[k])
    ensures i + n == |s| || !IsDigit(s[i + n])
    decreases |s| - i
  {
    if i < |s| && IsDigit(s[i]) then 1 + DigitRun(s, i + 1) else 0
  }

  lemma DigitRunExact(s: string, i: nat, n: nat)
    requires i + n <= |s|
    requires forall k :: i <= k < i + n ==> IsDigit(s[k])
    requires i + n == |s| || !IsDigit(s[i + n])
    ensures DigitRun(s, i) == n
  {
  }

  /** The spelling of a match occurs at `p` exactly when each of its pieces does, in turn. */
  lemma SpellingOccurs(s: string, p: nat, m: VersionMatch)
    ensures var e1 := p + 1 + |m.major|;
      var e2 := e1 + 1 + |m.minor|;
      OccursAt(s, p, Spelling(m))
      <==> (OccursAt(s, p, "v") && OccursAt(s, p + 1, m.major) && OccursAt(s, e1, ".")
            && OccursAt(s, e1 + 1, m.minor) && OccursAt(s, e2, ".") && OccursAt(s, e2 + 1, m.patch))
  {
    var e1 := p + 1 + |m.major|;
    var e2 := e1 + 1 + |m.minor|;
    OccursSplit(s, p, "v" + m.major + "." + m.minor + ".", m.patch);
    OccursSplit(s, p, "v" + m.major + "." + m.minor, ".");
    OccursSplit(s, p, "v" + m.major + ".", m.minor);
    OccursSplit(s, p, "v" + m.major, ".");
    OccursSplit(s, p, "v", m.major);
  }

  /** A spelled match begins with `v`. */
  lemma SpellingOccursHead(s: string, p: nat, m: VersionMatch)
    requires OccursAt(s, p, Spelling(m))
    ensures p < |s| && s[p] == 'v'
  {
    assert s[p..p + |Spelling(m)|][0] == s[p];
  }

  /** One character occurs at `p` when it is the character at `p`. */
  lemma OccursOne(s: string, p: nat, c: char)
    ensures OccursAt(s, p, [c]) <==> p < |s| && s[p] == c
  {
    if p < |s| {
      assert s[p..p + 1] == [s[p]];
    }
  }

  /** The pattern tried at position `p` alone. */
  function MatchAt(s: string, p: nat): Option<VersionMatch>
  {
    if p < |s| && s[p] == 'v' then
      var e1 := p + 1 + DigitRun(s, p + 1);
      if e1 > p + 1 && e1 < |s| && s[e1] == '.' then
        var e2 := e1 + 1 + DigitRun(s, e1 + 1);
        if e2 > e1 + 1 && e2 < |s| && s[e2] == '.' then
          var e3 := e2 + 1 + DigitRun(s, e2 + 1);
          if e3 > e2 + 1 then
            Some(VersionMatch(s[p + 1..e1], s[e1 + 1..e2], s[e2 + 1..e3]))
          else None
        else None
      else None
    else None
  }

  /** Whatever the matcher returns is a match of the pattern. */
  lemma MatchAtSound(s: string, p: nat)
    requires MatchAt(s, p).Some?
    ensures MatchesAt(s, p, MatchAt(s, p).value)
  {
    MatchAtPieces(s, p);
    PiecesMatch(s, p, MatchAt(s, p).value);
  }

  /** Pieces read one after another make up a match. */
  lemma PiecesMatch(s: string, p: nat, m: VersionMatch)
    requires var e1 := p + 1 + |m.major|;
      var e2 := e1 + 1 + |m.minor|;
      var e3 := e2 + 1 + |m.patch|;
      && WellFormed(m) && e3 <= |s|
      && s[p] == 'v' && OccursAt(s, p + 1, m.major)
      && s[e1] == '.' && OccursAt(s, e1 + 1, m.minor)
      && s[e2] == '.' && OccursAt(s, e2 + 1, m.patch)
      && (e3 == |s| || !IsDigit(s[e3]))
    ensures MatchesAt(s, p, m)
  {
    var e1 := p + 1 + |m.major|;
    var e2 := e1 + 1 + |m.minor|;
    OccursOne(s, p, 'v');
    OccursOne(s, e1, '.');
    OccursOne(s, e2, '.');
    SpellingOccurs(s, p, m);
  }

  /** The characters and digit runs the matcher read on its way to a match. */
  lemma MatchAtPieces(s: string, p: nat)
    requires MatchAt(s, p).Some?
    ensures var m := MatchAt(s, p).value;
      var e1 := p + 1 + |m.major|;
      var e2 := e1 + 1 + |m.minor|;
      var e3 := e2 + 1 + |m.patch|;
      && WellFormed(m) && e3 <= |s|
      && s[p] == 'v' && OccursAt(s, p + 1, m.major)
      && s[e1] == '.' && OccursAt(s, e1 + 1, m.minor)
      && s[e2] == '.' && OccursAt(s, e2 + 1, m.patch)
      && (e3 == |s| || !IsDigit(s[e3]))
  {
  }

  /** A digit string occurring at `i` and not followed by a digit is the run at `i`. */
  lemma RunOf(s: string, i: nat, d: string)
    requires OccursAt(s, i, d) && AllDigits(d)
    requires i + |d| == |s| || !IsDigit(s[i + |d|])
    ensures DigitRun(s, i) == |d|
  {
    OccursChars(s, i, d);
    forall k | i <= k < i + |d|
      ensures IsDigit(s[k])
    {
      assert s[i + (k - i)] == d[k - i];
    }
    DigitRunExact(s, i, |d|);
  }

  /** The pieces of a spelled match, read off the string. */
  lemma SpellingParts(s: string, p: nat, m: VersionMatch)
    requires OccursAt(s, p, Spelling(m))
    ensures var e1 := p + 1 + |m.major|;
      var e2 := e1 + 1 + |m.minor|;
      && p < |s| && s[p] == 'v' && OccursAt(s, p + 1, m.major)
      && e1 < |s| && s[e1] == '.' && OccursAt(s, e1 + 1, m.minor)
      && e2 < |s| && s[e2] == '.' && OccursAt(s, e2 + 1, m.patch)
  {
    SpellingOccurs(s, p, m);
    OccursOne(s, p, 'v');
    OccursOne(s, p + 1 + |m.major|, '.');
    OccursOne(s, p + 2 + |m.major| + |m.minor|, '.');
  }

  /** The matcher's steps, given the characters and runs it will meet. */
  lemma MatchAtSteps(s: string, p: nat, m: VersionMatch)
    requires |m.major| > 0 && |m.minor| > 0 && |m.patch| > 0
    requires p < |s| && s[p] == 'v'
    requires DigitRun(s, p + 1) == |m.major| && OccursAt(s, p + 1, m.major)
    requires p + 1 + |m.major| < |s| && s[p + 1 + |m.major|] == '.'
    requires DigitRun(s, p + 2 + |m.major|) == |m.minor| && OccursAt(s, p + 2 + |m.major|, m.minor)
    requires p + 2 + |m.major| + |m.minor| < |s| && s[p + 2 + |m.major| + |m.minor|] == '.'
    requires DigitRun(s, p + 3 + |m.major| + |m.minor|) == |m.patch|
    requires OccursAt(s, p + 3 + |m.major| + |m.minor|, m.patch)
    ensures MatchAt(s, p) == Some(m)
  {
  }

  /** Whenever the pattern matches at `p`, the matcher finds exactly those captures. */
  lemma MatchAtComplete(s: string, p: nat, m: VersionMatch)
    requires MatchesAt(s, p, m)
    ensures MatchAt(s, p) == Some(m)
  {
    MatchRuns(s, p, m);
    MatchAtSteps(s, p, m);
  }

  /** A match read off the string: its characters, and its captures as maximal digit runs. */
  lemma MatchRuns(s: string, p: nat, m: VersionMatch)
    requires MatchesAt(s, p, m)
    ensures var e1 := p + 1 + |m.major|;
      var e2 := e1 + 1 + |m.minor|;
      && |m.major| > 0 && |m.minor| > 0 && |m.patch| > 0
      && p < |s| && s[p] == 'v'
      && DigitRun(s, p + 1) == |m.major| && OccursAt(s, p + 1, m.major)
      && e1 < |s| && s[e1] == '.'
      && DigitRun(s, e1 + 1) == |m.minor| && OccursAt(s, e1 + 1, m.minor)
      && e2 < |s| && s[e2] == '.'
      && DigitRun(s, e2 + 1) == |m.patch| && OccursAt(s, e2 + 1, m.patch)
  {
    var e1 := p + 1 + |m.major|;
    var e2 := e1 + 1 + |m.minor|;
    SpellingParts(s, p, m);
    RunOf(s, p + 1, m.major);
    RunOf(s, e1 + 1, m.minor);
    RunOf(s, e2 + 1, m.patch);
  }

  /** `version.match(...)`: the leftmost match at or after `from`, with its position. */
  function FindVersionFrom(s: string, from: nat): (r: Option<(nat, VersionMatch)>)
    ensures r.Some? ==> from <= r.value.0 && MatchAt(s, r.value.0) == Some(r.value.1)
    ensures r.Some? ==> forall q :: from <= q < r.value.0 ==> MatchAt(s, q).None?
    ensures r.None? ==> forall q :: from <= q ==> MatchAt(s, q).None?
    decreases |s| - from
  {
    if from >= |s| then None
    else match MatchAt(s, from)
      case Some(m) => Some((from, m))
      case None => FindVersionFrom(s, from + 1)
  }

  /** The leftmost match is at `p` with captures `m`. */
  lemma FindVersionLeftmost(s: string, p: nat, m: VersionMatch)
    requires MatchesAt(s, p, m)
    requires forall q: nat, m': VersionMatch :: q < p ==> !MatchesAt(s, q, m')
    ensures FindVersionFrom(s, 0) == Some((p, m))
  {
    MatchAtComplete(s, p, m);
    var r := FindVersionFrom(s, 0);
    assert r.Some?;
    var (q, m') := r.value;
    MatchAtSound(s, q);
    assert q == p;
  }

  /** `incrementVersion(version)`. */
  function IncrementVersion(version: string): string
  {
    match FindVersionFrom(version, 0)
    case None => version
    case Some((_, m)) => Spelling(Bump(m))
  }

  /** A string in which the pattern never matches comes back unchanged. */
  lemma IncrementVersionNoMatch(s: string)
    requires forall p: nat, m: VersionMatch :: !MatchesAt(s, p, m)
    ensures IncrementVersion(s) == s
  {
    var r := FindVersionFrom(s, 0);
    if r.Some? {
      MatchAtSound(s, r.value.0);
    }
  }

  /**
   * With the leftmost match at `p`, the result is that match alone with the
   * patch incremented: major and minor are copied verbatim, the patch is
   * printed from its numeric value, and the text around the match is gone.
   */
  lemma IncrementVersionBumps(s: string, p: nat, m: VersionMatch)
    requires MatchesAt(s, p, m)
    requires forall q: nat, m': VersionMatch :: q < p ==> !MatchesAt(s, q, m')
    ensures IncrementVersion(s) == Spelling(Bump(m))
    ensures Bump(m).major == m.major && Bump(m).minor == m.minor
    ensures Bump(m).patch == ToDecimal(ParseDecimal(m.patch) + 1)
  {
    FindVersionLeftmost(s, p, m);
  }

  /** A bare version string matches at its start with its own parts as captures. */
  lemma SpellingMatches(m: VersionMatch)
    requires WellFormed(m)
    ensures FindVersionFrom(Spelling(m), 0) == Some((0, m))
  {
    var s := Spelling(m);
    assert s[0..|s|] == s;
    FindVersionLeftmost(s, 0, m);
  }

  /**
   * The output of a bump matches the pattern again, at its start, with a
   * patch number larger by one; so bumping twice adds two.
   */
  lemma IncrementVersionRepeats(s: string, p: nat, m: VersionMatch)
    requires MatchesAt(s, p, m)
    requires forall q: nat, m': VersionMatch :: q < p ==> !MatchesAt(s, q, m')
    ensures FindVersionFrom(IncrementVersion(s), 0) == Some((0, Bump(m)))
    ensures ParseDecimal(Bump(m).patch) == ParseDecimal(m.patch) + 1
    ensures IncrementVersion(IncrementVersion(s)) == Spelling(Bump(Bump(m)))
  {
    IncrementVersionBumps(s, p, m);
    SpellingMatches(Bump(m));
    ParseToDecimal(ParseDecimal(m.patch) + 1);
  }

  /** `incrementVersion('v1.2.007')` is `'v1.2.8'`: the patch loses its leading zeros. */
  lemma IncrementVersionDropsLeadingZeros(s: string)
    requires s == "v1.2.007"
    ensures IncrementVersion(s) == "v1.2.8"
  {
    var m := VersionMatch("1", "2", "007");
    assert Spelling(m) == "v1.2.007";
    SpellingMatches(m);
    assert ParseDecimal("007") == 7 by {
      assert "007"[..2] == "00" && "00"[..1] == "0" && "0"[..0] == "";
    }
    assert ToDecimal(8) == "8";
  }

  /** `incrementVersion('xv1.2.3-rc')` is `'v1.2.4'`: surrounding text is dropped. */
  lemma IncrementVersionDropsSurroundings(s: string)
    requires s == "xv1.2.3-rc"
    ensures IncrementVersion(s) == "v1.2.4"
  {
    var m := VersionMatch("1", "2", "3");
    assert Spelling(m) == "v1.2.3";
    assert s[1..7] == "v1.2.3";
    assert MatchesAt(s, 1, m);
    forall q: nat, m': VersionMatch | q < 1
      ensures !MatchesAt(s, q, m')
    {
      if MatchesAt(s, q, m') {
        SpellingOccursHead(s, q, m');
      }
    }
    IncrementVersionBumps(s, 1, m);
    assert ParseDecimal("3") == 3 by {
      assert "3"[..0] == "";
    }
    assert ToDecimal(4) == "4";
  }

  // ---------------------------------------------------------------------
  // APP_VERSION in common.js

  const AppVersionHead: string := "const APP_VERSION = '"
  const DeclTail: string := "';"

  /** `const APP_VERSION = '${version}';` */
  function AppVersionDecl(version: string): string
  {
    AppVersionHead + version + DeclTail
  }

  /** `/const APP_VERSION = '(v\d+\.\d+\.\d+)';/` matches at `p` with the version parts `m`. */
  predicate DeclaresAppVersion(s: string, p: nat, m: VersionMatch)
  {
    WellFormed(m) && OccursAt(s, p, AppVersionDecl(Spelling(m)))
  }

  /** The declaration pattern tried at position `p` alone. */
  function AppVersionAt(s: string, p: nat): Option<VersionMatch>
  {
    if OccursAt(s, p, AppVersionHead) then
      match MatchAt(s, p + |AppVersionHead|)
      case Some(m) =>
        if OccursAt(s, p + |AppVersionHead| + |Spelling(m)|, DeclTail) then Some(m) else None
      case None => None
    else None
  }

  /** The matcher agrees with the declarative reading of the pattern, both ways. */
  lemma AppVersionAtIff(s: string, p: nat, m: VersionMatch)
    ensures AppVersionAt(s, p) == Some(m) <==> DeclaresAppVersion(s, p, m)
  {
    if AppVersionAt(s, p) == Some(m) {
      AppVersionAtSound(s, p, m);
    }
    if DeclaresAppVersion(s, p, m) {
      AppVersionAtComplete(s, p, m);
    }
  }

  /** What the declaration matcher finds is a declaration. */
  lemma AppVersionAtSound(s: string, p: nat, m: VersionMatch)
    requires AppVersionAt(s, p) == Some(m)
    ensures DeclaresAppVersion(s, p, m)
  {
    OccursSplit(s, p, AppVersionHead + Spelling(m), DeclTail);
    OccursSplit(s, p, AppVersionHead, Spelling(m));
    MatchAtSound(s, p + |AppVersionHead|);
  }

  /** A declaration is found by the declaration matcher, with its version parts. */
  lemma AppVersionAtComplete(s: string, p: nat, m: VersionMatch)
    requires DeclaresAppVersion(s, p, m)
    ensures AppVersionAt(s, p) == Some(m)
  {
    var h := |AppVersionHead|;
    var v := Spelling(m);
    OccursSplit(s, p, AppVersionHead + v, DeclTail);
    OccursSplit(s, p, AppVersionHead, v);
    OccursChars(s, p + h + |v|, DeclTail);
    MatchAtComplete(s, p + h, m);
  }

  /** The leftmost declaration at or after `from`, with its position. */
  function FindAppVersionFrom(s: string, from: nat): (r: Option<(nat, VersionMatch)>)
    ensures r.Some? ==> from <= r.value.0 && AppVersionAt(s, r.value.0) == Some(r.value.1)
    ensures r.Some? ==> forall q :: from <= q < r.value.0 ==> AppVersionAt(s, q).None?
    ensures r.None? ==> forall q :: from <= q ==> AppVersionAt(s, q).None?
    decreases |s| - from
  {
    if from >= |s| then None
    else match AppVersionAt(s, from)
      case Some(m) => Some((from, m))
      case None => FindAppVersionFrom(s, from + 1)
  }

  /** What `updateCommonJs` produces: the new file content and the new version. */
  datatype CommonJsUpdate = MissingAppVersion | Updated(content: string, newVersion: string)

  /**
   * The content rewrite of `updateCommonJs`: find the declaration, bump the
   * captured version, and replace the first occurrence of the declaration
   * text. A missing declaration is the script's fatal error.
   */
  function UpdateCommonJs(content: string): CommonJsUpdate
  {
    match FindAppVersionFrom(content, 0)
    case None => MissingAppVersion
    case Some((_, m)) =>
      var current := Spelling(m);
      var next := IncrementVersion(current);
      Updated(ReplaceFirst(content, AppVersionDecl(current), AppVersionDecl(next)), next)
  }

  /** Without a declaration, the rewrite is the error case. */
  lemma UpdateCommonJsMissing(content: string)
    requires forall p: nat, m: VersionMatch :: !DeclaresAppVersion(content, p, m)
    ensures UpdateCommonJs(content) == MissingAppVersion
  {
    var r := FindAppVersionFrom(content, 0);
    if r.Some? {
      AppVersionAtIff(content, r.value.0, r.value.1);
    }
  }

  /**
   * With the first declaration at `p`, exactly that declaration is replaced
   * by one carrying the bumped version; the text before and after it is
   * kept as it was.
   */
  lemma UpdateCommonJsRewrites(content: string, p: nat, m: VersionMatch)
    requires DeclaresAppVersion(content, p, m)
    requires forall q: nat, m': VersionMatch :: q < p ==> !DeclaresAppVersion(content, q, m')
    ensures var old_ := AppVersionDecl(Spelling(m));
      var new_ := AppVersionDecl(Spelling(Bump(m)));
      UpdateCommonJs(content) == Updated(content[..p] + new_ + content[p + |old_|..], Spelling(Bump(m)))
  {
    FindAppVersionLeftmost(content, p, m);
    NoEarlierAppVersionText(content, p, m);
    AppVersionDeclReplacedAt(content, p, m);
    UpdateCommonJsAt(content, p, m);
  }

  /** `replace` on the first declaration text swaps it for the bumped one. */
  lemma AppVersionDeclReplacedAt(content: string, p: nat, m: VersionMatch)
    requires OccursAt(content, p, AppVersionDecl(Spelling(m)))
    requires forall q :: 0 <= q < p ==> !OccursAt(content, q, AppVersionDecl(Spelling(m)))
    requires WellFormed(m)
    ensures ReplaceFirst(content, AppVersionDecl(Spelling(m)), AppVersionDecl(Spelling(Bump(m))))
      == content[..p] + AppVersionDecl(Spelling(Bump(m))) + content[p + |AppVersionDecl(Spelling(m))|..]
  {
    ReplaceFirstAt(content, AppVersionDecl(Spelling(m)), AppVersionDecl(Spelling(Bump(m))), p);
  }

  /** The rewrite at a found declaration, given where `replace` acts. */
  lemma UpdateCommonJsAt(content: string, p: nat, m: VersionMatch)
    requires FindAppVersionFrom(content, 0) == Some((p, m)) && WellFormed(m)
    requires p + |AppVersionDecl(Spelling(m))| <= |content|
    requires ReplaceFirst(content, AppVersionDecl(Spelling(m)), AppVersionDecl(Spelling(Bump(m))))
      == content[..p] + AppVersionDecl(Spelling(Bump(m))) + content[p + |AppVersionDecl(Spelling(m))|..]
    ensures var old_ := AppVersionDecl(Spelling(m));
      var new_ := AppVersionDecl(Spelling(Bump(m)));
      UpdateCommonJs(content) == Updated(content[..p] + new_ + content[p + |old_|..], Spelling(Bump(m)))
  {
    SpellingMatches(m);
  }

  /** The leftmost declaration is at `p` with version parts `m`. */
  lemma FindAppVersionLeftmost(content: string, p: nat, m: VersionMatch)
    requires DeclaresAppVersion(content, p, m)
    requires forall q: nat, m': VersionMatch :: q < p ==> !DeclaresAppVersion(content, q, m')
    ensures FindAppVersionFrom(content, 0) == Some((p, m))
  {
    AppVersionAtIff(content, p, m);
    var r := FindAppVersionFrom(content, 0);
    AppVersionAtIff(content, r.value.0, r.value.1);
  }

  /**
   * The text that `replace` searches for cannot occur before the first
   * declaration, since any occurrence of it is itself a declaration.
   */
  lemma NoEarlierAppVersionText(content: string, p: nat, m: VersionMatch)
    requires WellFormed(m)
    requires forall q: nat, m': VersionMatch :: q < p ==> !DeclaresAppVersion(content, q, m')
    ensures forall q :: 0 <= q < p ==> !OccursAt(content, q, AppVersionDecl(Spelling(m)))
  {
    forall q | 0 <= q < p
      ensures !OccursAt(content, q, AppVersionDecl(Spelling(m)))
    {
      assert !DeclaresAppVersion(content, q, m);
    }
  }

  // ---------------------------------------------------------------------
  // CACHE_NAME in sw.js

  const CacheHead: string := "const CACHE_NAME = 'kirari-shuttle-v"

  /** `const CACHE_NAME = 'kirari-shuttle-v${n}';` */
  function CacheDecl(n: string): string
  {
    CacheHead + n + DeclTail
  }

  /** `/const CACHE_NAME = 'kirari-shuttle-v(\d+)';/` matches at `p` capturing `d`. */
  predicate DeclaresCache(s: string, p: nat, d: string)
  {
    |d| > 0 && AllDigits(d) && OccursAt(s, p, CacheDecl(d))
  }

  /** The cache pattern tried at position `p` alone. */
  function CacheAt(s: string, p: nat): Option<string>
  {
    if OccursAt(s, p, CacheHead) then
      var n := DigitRun(s, p + |CacheHead|);
      if n > 0 && OccursAt(s, p + |CacheHead| + n, DeclTail) then
        Some(s[p + |CacheHead|..p + |CacheHead| + n])
      else None
    else None
  }

  /** The matcher agrees with the declarative reading of the pattern, both ways. */
  lemma CacheAtIff(s: string, p: nat, d: string)
    ensures CacheAt(s, p) == Some(d) <==> DeclaresCache(s, p, d)
  {
    if CacheAt(s, p) == Some(d) {
      CacheAtSound(s, p, d);
    }
    if DeclaresCache(s, p, d) {
      CacheAtComplete(s, p, d);
    }
  }

  /** What the cache matcher finds is a cache declaration. */
  lemma CacheAtSound(s: string, p: nat, d: string)
    requires CacheAt(s, p) == Some(d)
    ensures DeclaresCache(s, p, d)
  {
    OccursSplit(s, p, CacheHead + d, DeclTail);
    OccursSplit(s, p, CacheHead, d);
  }

  /** A cache declaration is found by the cache matcher, with its digits. */
  lemma CacheAtComplete(s: string, p: nat, d: string)
    requires DeclaresCache(s, p, d)
    ensures CacheAt(s, p) == Some(d)
  {
    var h := |CacheHead|;
    OccursSplit(s, p, CacheHead + d, DeclTail);
    OccursSplit(s, p, CacheHead, d);
    OccursChars(s, p + h, d);
    OccursChars(s, p + h + |d|, DeclTail);
    DigitRunExact(s, p + h, |d|);
  }

  /** The leftmost cache declaration at or after `from`, with its position. */
  function FindCacheFrom(s: string, from: nat): (r: Option<(nat, string)>)
    ensures r.Some? ==> from <= r.value.0 && CacheAt(s, r.value.0) == Some(r.value.1)
    ensures r.Some? ==> forall q :: from <= q < r.value.0 ==> CacheAt(s, q).None?
    ensures r.None? ==> forall q :: from <= q ==> CacheAt(s, q).None?
    decreases |s| - from
  {
    if from >= |s| then None
    else match CacheAt(s, from)
      case Some(d) => Some((from, d))
      case None => FindCacheFrom(s, from + 1)
  }

  /** What `updateServiceWorker` produces. */
  datatype ServiceWorkerUpdate =
    | CacheNameMissing
    | CacheRewritten(content: string, oldCache: nat, newCache: nat)

  /**
   * The content rewrite of `updateServiceWorker`: the captured number is
   * parsed, and the search text is printed again from that number.
   */
  function UpdateServiceWorker(content: string): (r: ServiceWorkerUpdate)
    ensures r.CacheRewritten? ==>
      exists p: nat, d: string :: DeclaresCache(content, p, d) && r.oldCache == ParseDecimal(d)
  {
    match FindCacheFrom(content, 0)
    case None => CacheNameMissing
    case Some((p, d)) =>
      CacheAtSound(content, p, d);
      var current := ParseDecimal(d);
      var next := current + 1;
      CacheRewritten(ReplaceFirst(content, CacheDecl(ToDecimal(current)), CacheDecl(ToDecimal(next))), current, next)
  }

  /** The leftmost cache declaration is at `p` with captured digits `d`. */
  lemma FindCacheLeftmost(content: string, p: nat, d: string)
    requires DeclaresCache(content, p, d)
    requires forall q: nat, d': string :: q < p ==> !DeclaresCache(content, q, d')
    ensures FindCacheFrom(content, 0) == Some((p, d))
  {
    CacheAtIff(content, p, d);
    var r := FindCacheFrom(content, 0);
    assert r.Some?;
    CacheAtIff(content, r.value.0, r.value.1);
    assert r.value == (p, d);
  }

  /** Without a cache declaration nothing is rewritten. */
  lemma UpdateServiceWorkerMissing(content: string)
    requires forall p: nat, d: string :: !DeclaresCache(content, p, d)
    ensures UpdateServiceWorker(content) == CacheNameMissing
  {
    var r := FindCacheFrom(content, 0);
    if r.Some? {
      CacheAtIff(content, r.value.0, r.value.1);
    }
  }

  /**
   * `kirari-shuttle-vN` becomes `kirari-shuttle-v(N+1)` at the first
   * declaration, and nothing else changes, when N is written without
   * leading zeros.
   */
  lemma UpdateServiceWorkerBumps(content: string, p: nat, d: string)
    requires DeclaresCache(content, p, d) && Canonical(d)
    requires forall q: nat, d': string :: q < p ==> !DeclaresCache(content, q, d')
    ensures var n := ParseDecimal(d);
      UpdateServiceWorker(content)
      == CacheRewritten(content[..p] + CacheDecl(ToDecimal(n + 1)) + content[p + |CacheDecl(d)|..], n, n + 1)
  {
    FindCacheLeftmost(content, p, d);
    NoEarlierCacheText(content, p, d);
    CacheDeclReplacedAt(content, p, d);
    UpdateServiceWorkerAt(content, p, d);
  }

  /** `replace` on the first cache declaration text swaps it for the next one. */
  lemma CacheDeclReplacedAt(content: string, p: nat, d: string)
    requires Canonical(d)
    requires OccursAt(content, p, CacheDecl(d))
    requires forall q :: 0 <= q < p ==> !OccursAt(content, q, CacheDecl(d))
    ensures var n := ParseDecimal(d);
      ReplaceFirst(content, CacheDecl(d), CacheDecl(ToDecimal(n + 1)))
      == content[..p] + CacheDecl(ToDecimal(n + 1)) + content[p + |CacheDecl(d)|..]
  {
    ReplaceFirstAt(content, CacheDecl(d), CacheDecl(ToDecimal(ParseDecimal(d) + 1)), p);
  }

  /** The rewrite at a found, canonical declaration, given where `replace` acts. */
  lemma UpdateServiceWorkerAt(content: string, p: nat, d: string)
    requires FindCacheFrom(content, 0) == Some((p, d)) && Canonical(d)
    requires p + |CacheDecl(d)| <= |content|
    requires var n := ParseDecimal(d);
      ReplaceFirst(content, CacheDecl(d), CacheDecl(ToDecimal(n + 1)))
      == content[..p] + CacheDecl(ToDecimal(n + 1)) + content[p + |CacheDecl(d)|..]
    ensures var n := ParseDecimal(d);
      UpdateServiceWorker(content)
      == CacheRewritten(content[..p] + CacheDecl(ToDecimal(n + 1)) + content[p + |CacheDecl(d)|..], n, n + 1)
  {
    UpdateServiceWorkerSearchText(content, p, d);
  }

  /** With a canonical capture, the search text is the declaration that was found. */
  lemma UpdateServiceWorkerSearchText(content: string, p: nat, d: string)
    requires FindCacheFrom(content, 0) == Some((p, d)) && Canonical(d)
    ensures var n := ParseDecimal(d);
      UpdateServiceWorker(content)
      == CacheRewritten(ReplaceFirst(content, CacheDecl(d), CacheDecl(ToDecimal(n + 1))), n, n + 1)
  {
    ToDecimalParse(d);
  }

  /** The cache declaration text cannot occur before the first cache declaration. */
  lemma NoEarlierCacheText(content: string, p: nat, d: string)
    requires |d| > 0 && AllDigits(d)
    requires forall q: nat, d': string :: q < p ==> !DeclaresCache(content, q, d')
    ensures forall q :: 0 <= q < p ==> !OccursAt(content, q, CacheDecl(d))
  {
    forall q | 0 <= q < p
      ensures !OccursAt(content, q, CacheDecl(d))
    {
      assert !DeclaresCache(content, q, d);
    }
  }

  /**
   * When N is written with leading zeros, the search text printed from
   * `parseInt` differs from the declaration; if that text occurs nowhere,
   * the content is left as it was although a declaration was found.
   */
  lemma UpdateServiceWorkerLeadingZeros(content: string, p: nat, d: string)
    requires DeclaresCache(content, p, d) && |d| > 1 && d[0] == '0'
    requires forall q: nat, d': string :: q < p ==> !DeclaresCache(content, q, d')
    requires forall q :: 0 <= q ==> !OccursAt(content, q, CacheDecl(ToDecimal(ParseDecimal(d))))
    ensures UpdateServiceWorker(content).CacheRewritten?
    ensures UpdateServiceWorker(content).content == content
  {
    FindCacheLeftmost(content, p, d);
    ReplaceFirstAbsent(content, CacheDecl(ToDecimal(ParseDecimal(d))), CacheDecl(ToDecimal(ParseDecimal(d) + 1)));
  }
}
