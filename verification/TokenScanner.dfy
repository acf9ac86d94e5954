/**
  Redaction of bearer tokens and JSON Web Tokens in free text
  (src/common/utils/sensitive-data.util.ts:7-21).

  A text is scanned from left to right. What a pattern sees at a position is the
  rest of the text together with one bit of left context: whether the preceding
  character is a word character, which is all that a word boundary depends on.
 */
module TokenScanner {
  import opened Common
  import opened Text

  const REDACTED := "[REDACTED]"

  datatype Pattern = Bearer | Jwt

  // ----- character classes -----

  predicate IsAlnum(c: char) {
    'a' <= c <= 'z' || 'A' <= c <= 'Z' || '0' <= c <= '9'
  }

  /** The class behind a word boundary. */
  predicate IsWord(c: char) {
    IsAlnum(c) || c == '_'
  }

  /** One character of a b64token (section 2.1 of RFC 6750), padding aside. */
  predicate IsB64Token(c: char) {
    IsAlnum(c) || c == '-' || c == '.' || c == '_' || c == '~' || c == '+' || c == '/'
  }

  /** The base64url alphabet (section 5 of RFC 4648). */
  predicate IsBase64Url(c: char) {
    IsAlnum(c) || c == '_' || c == '-'
  }

  predicate IsPad(c: char) {
    c == '='
  }

  // ----- what the two patterns mean -----

  /** Whether u[i..] follows a word character, when u itself does so according to `before`. */
  predicate Context(before: bool, u: string, i: nat)
    requires i <= |u|
  {
    if i == 0 then before else IsWord(u[i - 1])
  }

  /** A word boundary just before u[n]; `before` tells whether u follows a word character. */
  predicate Boundary(before: bool, u: string, n: nat)
    requires n <= |u|
  {
    Context(before, u, n) != (n < |u| && IsWord(u[n]))
  }

  predicate Run(u: string, lo: int, hi: int, cls: char -> bool) {
    0 <= lo <= hi <= |u| && forall k | lo <= k < hi :: cls(u[k])
  }

  /** A bearer match of length n: the scheme name, white space up to w, a token up to c, padding up to n. */
  predicate BearerSplit(before: bool, u: string, w: nat, c: nat, n: nat) {
    && 6 < w < c <= n <= |u|
    && Boundary(before, u, 0) && Lower(u[..6]) == "bearer"
    && Run(u, 6, w, IsSpace) && Run(u, w, c, IsB64Token) && Run(u, c, n, IsPad)
  }

  /** A compact JWS (section 7.1 of RFC 7515) of length n whose dots are at d and f. */
  predicate JwtSplit(before: bool, u: string, d: nat, f: nat, n: nat) {
    && 13 <= d && d + 11 <= f && f + 11 <= n <= |u|
    && Boundary(before, u, 0) && u[..3] == "eyJ"
    && Run(u, 3, d, IsBase64Url) && u[d] == '.'
    && Run(u, d + 1, f, IsBase64Url) && u[f] == '.'
    && Run(u, f + 1, n, IsBase64Url) && Boundary(before, u, n)
  }

  /** The pattern matches the first n characters of u. */
  ghost predicate Matches(p: Pattern, before: bool, u: string, n: nat) {
    match p
    case Bearer => exists w: nat, c: nat :: BearerSplit(before, u, w, c, n)
    case Jwt => exists d: nat, f: nat :: JwtSplit(before, u, d, f, n)
  }

  ghost predicate MatchesAt(p: Pattern, before: bool, u: string, i: nat, n: nat)
    requires i <= |u|
  {
    Matches(p, Context(before, u, i), u[i..], n)
  }

  /** No occurrence of the pattern anywhere in u. */
  ghost predicate Clean(p: Pattern, before: bool, u: string) {
    forall i: nat, n: nat | i <= |u| :: !MatchesAt(p, before, u, i, n)
  }

  /** The text holds neither a bearer token nor a JSON Web Token. */
  ghost predicate TokenFree(s: string) {
    Clean(Bearer, false, s) && Clean(Jwt, false, s)
  }

  // ----- the scanner -----

  /** The end of the greedy run of `cls` that starts at i. */
  function RunEnd(u: string, i: nat, cls: char -> bool): (r: nat)
    requires i <= |u|
    ensures i <= r <= |u|
    decreases |u| - i
  {
    if i < |u| && cls(u[i]) then RunEnd(u, i + 1, cls) else i
  }

  /** Gives characters back, one by one from hi but not below lo, until a word boundary is reached. */
  function BackToBoundary(before: bool, u: string, lo: nat, hi: nat): (r: Option<nat>)
    requires hi <= |u|
    ensures r.Some? ==> lo <= r.value <= hi
    decreases hi
  {
    if hi < lo then None
    else if Boundary(before, u, hi) then Some(hi)
    else if hi == 0 then None
    else BackToBoundary(before, u, lo, hi - 1)
  }

  function BearerHead(before: bool, u: string): (r: Option<nat>) {
    if !Boundary(before, u, 0) || |u| < 6 || Lower(u[..6]) != "bearer" then None else
    var w := RunEnd(u, 6, IsSpace);
    if w == 6 then None else
    var c := RunEnd(u, w, IsB64Token);
    if c == w then None else Some(RunEnd(u, c, IsPad))
  }

  function JwtHead(before: bool, u: string): (r: Option<nat>) {
    if !Boundary(before, u, 0) || |u| < 3 || u[..3] != "eyJ" then None else
    var d := RunEnd(u, 3, IsBase64Url);
    if d < 13 || d == |u| || u[d] != '.' then None else
    var f := RunEnd(u, d + 1, IsBase64Url);
    if f < d + 11 || f == |u| || u[f] != '.' then None else
    BackToBoundary(before, u, f + 11, RunEnd(u, f + 1, IsBase64Url))
  }

  /** The length of the match the pattern finds at the head of u. */
  function Head(p: Pattern, before: bool, u: string): (r: Option<nat>)
    ensures r.Some? ==> 0 < r.value <= |u|
  {
    match p
    case Bearer => BearerHead(before, u)
    case Jwt => JwtHead(before, u)
  }

  function Replacement(p: Pattern): string {
    match p
    case Bearer => "Bearer " + REDACTED
    case Jwt => REDACTED
  }

  /** Global replacement of the pattern. */
  function Scan(p: Pattern, before: bool, u: string): string
    decreases |u|
  {
    if u == "" then "" else
    match Head(p, before, u)
    case Some(n) => Replacement(p) + Scan(p, IsWord(u[n - 1]), u[n..])
    case None => [u[0]] + Scan(p, IsWord(u[0]), u[1..])
  }

  function SanitizeString(value: string): string {
    Scan(Jwt, false, Scan(Bearer, false, value))
  }

  // ----- the scanner finds exactly the longest match -----

  lemma {:induction false} RunEndIsMaximal(u: string, i: nat, cls: char -> bool)
    requires i <= |u|
    ensures var r := RunEnd(u, i, cls); Run(u, i, r, cls) && (r < |u| ==> !cls(u[r]))
    decreases |u| - i
  {
    if i < |u| && cls(u[i]) {
      RunEndIsMaximal(u, i + 1, cls);
    }
  }

  lemma {:induction false} BackToBoundaryIsLast(before: bool, u: string, lo: nat, hi: nat)
    requires hi <= |u|
    ensures var r := BackToBoundary(before, u, lo, hi);
      && (r.Some? ==> Boundary(before, u, r.value))
      && (forall k: nat | lo <= k <= hi && Boundary(before, u, k) :: r.Some? && k <= r.value)
    decreases hi
  {
    if lo <= hi && !Boundary(before, u, hi) && hi > 0 {
      BackToBoundaryIsLast(before, u, lo, hi - 1);
    }
  }

  lemma {:induction false} RunEndIs(u: string, i: nat, r: nat, cls: char -> bool)
    requires Run(u, i, r, cls) && (r == |u| || !cls(u[r]))
    ensures RunEnd(u, i, cls) == r
    decreases |u| - i
  {
    if i < r {
      RunEndIs(u, i + 1, r, cls);
    }
  }

  lemma {:induction false} RunEndAtLeast(u: string, i: nat, r: nat, cls: char -> bool)
    requires Run(u, i, r, cls)
    ensures r <= RunEnd(u, i, cls)
    decreases |u| - i
  {
    if i < r {
      RunEndAtLeast(u, i + 1, r, cls);
    }
  }

  lemma BearerHeadIsMatch(before: bool, u: string)
    requires BearerHead(before, u).Some?
    ensures Matches(Bearer, before, u, BearerHead(before, u).value)
  {
    var w := RunEnd(u, 6, IsSpace);
    var c := RunEnd(u, w, IsB64Token);
    var n := RunEnd(u, c, IsPad);
    RunEndIsMaximal(u, 6, IsSpace);
    RunEndIsMaximal(u, w, IsB64Token);
    RunEndIsMaximal(u, c, IsPad);
    assert BearerSplit(before, u, w, c, n);
  }

  lemma BearerMatchIsFound(before: bool, u: string, w: nat, c: nat, n: nat)
    requires BearerSplit(before, u, w, c, n)
    ensures BearerHead(before, u).Some? && n <= BearerHead(before, u).value
  {
    assert IsB64Token(u[w]);
    RunEndIs(u, 6, w, IsSpace);
    if c < n {
      assert IsPad(u[c]);
      RunEndIs(u, w, c, IsB64Token);
      RunEndAtLeast(u, c, n, IsPad);
    } else {
      RunEndAtLeast(u, w, c, IsB64Token);
    }
  }

  lemma JwtHeadIsMatch(before: bool, u: string)
    requires JwtHead(before, u).Some?
    ensures Matches(Jwt, before, u, JwtHead(before, u).value)
  {
    var d := RunEnd(u, 3, IsBase64Url);
    var f := RunEnd(u, d + 1, IsBase64Url);
    var hi := RunEnd(u, f + 1, IsBase64Url);
    RunEndIsMaximal(u, 3, IsBase64Url);
    RunEndIsMaximal(u, d + 1, IsBase64Url);
    RunEndIsMaximal(u, f + 1, IsBase64Url);
    BackToBoundaryIsLast(before, u, f + 11, hi);
    assert JwtSplit(before, u, d, f, JwtHead(before, u).value);
  }

  lemma JwtMatchIsFound(before: bool, u: string, d: nat, f: nat, n: nat)
    requires JwtSplit(before, u, d, f, n)
    ensures JwtHead(before, u).Some? && n <= JwtHead(before, u).value
  {
    RunEndIs(u, 3, d, IsBase64Url);
    RunEndIs(u, d + 1, f, IsBase64Url);
    RunEndAtLeast(u, f + 1, n, IsBase64Url);
    BackToBoundaryIsLast(before, u, f + 11, RunEnd(u, f + 1, IsBase64Url));
  }

  /** At every position the scanner finds the longest match of the pattern, and finds one whenever there is one. */
  lemma HeadIsLongestMatch(p: Pattern, before: bool, u: string)
    ensures Head(p, before, u).Some? ==> Matches(p, before, u, Head(p, before, u).value)
    ensures forall n: nat | Matches(p, before, u, n) ::
      Head(p, before, u).Some? && n <= Head(p, before, u).value
  {
    if Head(p, before, u).Some? {
      if p == Bearer { BearerHeadIsMatch(before, u); } else { JwtHeadIsMatch(before, u); }
    }
    forall n: nat | Matches(p, before, u, n)
      ensures Head(p, before, u).Some? && n <= Head(p, before, u).value
    {
      if p == Bearer {
        var w: nat, c: nat :| BearerSplit(before, u, w, c, n);
        BearerMatchIsFound(before, u, w, c, n);
      } else {
        var d: nat, f: nat :| JwtSplit(before, u, d, f, n);
        JwtMatchIsFound(before, u, d, f, n);
      }
    }
  }

  // ----- occurrences, one position at a time -----

  /** No match begins anywhere in u, read off the scanner. */
  predicate Free(p: Pattern, before: bool, u: string)
    decreases |u|
  {
    u == "" || (Head(p, before, u).None? && Free(p, IsWord(u[0]), u[1..]))
  }

  lemma CleanUnfold(p: Pattern, before: bool, u: string)
    ensures Clean(p, before, u) <==>
      u == "" || (Head(p, before, u).None? && Clean(p, IsWord(u[0]), u[1..]))
  {
    HeadIsLongestMatch(p, before, u);
    if u != "" {
      forall i: nat, n: nat | i <= |u[1..]|
        ensures MatchesAt(p, IsWord(u[0]), u[1..], i, n) == MatchesAt(p, before, u, i + 1, n)
      {
        assert u[1..][i..] == u[i + 1..];
      }
      assert u[0..] == u;
      if Head(p, before, u).None? && Clean(p, IsWord(u[0]), u[1..]) {
        forall i: nat, n: nat | i <= |u|
          ensures !MatchesAt(p, before, u, i, n)
        {
          if i > 0 { assert !MatchesAt(p, IsWord(u[0]), u[1..], i - 1, n); }
        }
      }
      if Clean(p, before, u) {
        if Head(p, before, u).Some? {
          assert MatchesAt(p, before, u, 0, Head(p, before, u).value);
        }
      }
    }
  }

  lemma {:induction false} FreeIsClean(p: Pattern, before: bool, u: string)
    ensures Free(p, before, u) <==> Clean(p, before, u)
    decreases |u|
  {
    CleanUnfold(p, before, u);
    if u != "" {
      FreeIsClean(p, IsWord(u[0]), u[1..]);
    }
  }

  lemma {:induction false} FreeSuffix(p: Pattern, before: bool, u: string, k: nat)
    requires k <= |u| && Free(p, before, u)
    ensures Free(p, Context(before, u, k), u[k..])
    decreases k
  {
    if k == 0 {
      assert u[0..] == u;
    } else {
      FreeSuffix(p, IsWord(u[0]), u[1..], k - 1);
      assert u[1..][k - 1..] == u[k..];
    }
  }

  /** Characters at which no match of the pattern begins. */
  predicate Inert(p: Pattern, c: char) {
    match p
    case Bearer => LowerChar(c) != 'b'
    case Jwt => c != 'e'
  }

  lemma InertHead(p: Pattern, before: bool, u: string)
    requires u != "" && Inert(p, u[0])
    ensures Head(p, before, u).None?
  {
    if |u| >= 6 { assert Lower(u[..6])[0] == LowerChar(u[0]); }
    if |u| >= 3 { assert u[..3][0] == u[0]; }
  }

  /** The context of a text matters only to a match at its very start. */
  lemma FreeAfterInert(p: Pattern, before: bool, before': bool, u: string)
    requires u == "" || Inert(p, u[0])
    requires Free(p, before, u)
    ensures Free(p, before', u)
  {
    if u != "" { InertHead(p, before', u); }
  }

  lemma {:induction false} PrependInert(p: Pattern, before: bool, r: string, t: string)
    requires forall c | c in r :: Inert(p, c)
    requires Free(p, Context(before, r, |r|), t)
    ensures Free(p, before, r + t)
    decreases |r|
  {
    if r == "" {
      assert r + t == t;
    } else {
      PrependInert(p, IsWord(r[0]), r[1..], t);
      assert (r + t)[1..] == r[1..] + t;
      InertHead(p, before, r + t);
    }
  }

  lemma PrependMarker(p: Pattern, before: bool, t: string)
    requires Free(p, false, t)
    ensures Free(p, before, REDACTED + t)
  {
    PrependInert(p, before, REDACTED, t);
  }

  // ----- what the output of a scan has in common with its input -----

  /** Up to its first marker, the output of a token scan is the input itself. */
  lemma {:induction false} JwtScanCopies(before: bool, u: string, k: nat)
    requires k <= |Scan(Jwt, before, u)| && '[' !in Scan(Jwt, before, u)[..k]
    ensures k <= |u| && u[..k] == Scan(Jwt, before, u)[..k]
    ensures Scan(Jwt, before, u)[k..] == Scan(Jwt, Context(before, u, k), u[k..])
    decreases |u|
  {
    var out := Scan(Jwt, before, u);
    if k == 0 {
      assert u[0..] == u && out[0..] == out;
    } else {
      assert out[0] in out[..k];
      var rest := Scan(Jwt, IsWord(u[0]), u[1..]);
      assert out == [u[0]] + rest;
      assert out[..k] == [u[0]] + rest[..k - 1];
      JwtScanCopies(IsWord(u[0]), u[1..], k - 1);
      assert u[..k] == [u[0]] + u[1..][..k - 1];
      assert out[k..] == rest[k - 1..];
      assert u[1..][k - 1..] == u[k..];
    }
  }

  /** White space, possibly none, and then a token character. */
  predicate SpacesThenToken(u: string) {
    u != "" && (IsB64Token(u[0]) || (IsSpace(u[0]) && SpacesThenToken(u[1..])))
  }

  /** A bearer match needs only the scheme name, a blank, and one token character after the blanks. */
  predicate BearerStart(before: bool, u: string) {
    && |u| > 6 && !before && Lower(u[..6]) == "bearer"
    && IsSpace(u[6]) && SpacesThenToken(u[7..])
  }

  lemma {:induction false} SpacesThenTokenRun(u: string, i: nat)
    requires i <= |u|
    ensures SpacesThenToken(u[i..]) <==>
      (var w := RunEnd(u, i, IsSpace); w < |u| && IsB64Token(u[w]))
    decreases |u| - i
  {
    if i < |u| {
      assert u[i..][1..] == u[i + 1..];
      SpacesThenTokenRun(u, i + 1);
    }
  }

  lemma BearerStartIsHead(before: bool, u: string)
    ensures BearerStart(before, u) <==> Head(Bearer, before, u).Some?
  {
    if |u| >= 6 && Lower(u[..6]) == "bearer" {
      assert LowerChar(u[0]) == 'b' by { assert Lower(u[..6])[0] == LowerChar(u[0]); }
      if |u| > 6 && IsSpace(u[6]) {
        SpacesThenTokenRun(u, 7);
        assert RunEnd(u, 6, IsSpace) == RunEnd(u, 7, IsSpace);
      }
    }
  }

  lemma {:induction false} SpacesThenTokenKept(p: Pattern, before: bool, u: string)
    requires SpacesThenToken(Scan(p, before, u))
    ensures SpacesThenToken(u)
    decreases |u|
  {
    if Head(p, before, u).Some? {
      if p == Bearer { assert Lower(u[..6])[0] == LowerChar(u[0]); }
    } else if IsSpace(u[0]) {
      assert Scan(p, before, u)[1..] == Scan(p, IsWord(u[0]), u[1..]);
      SpacesThenTokenKept(p, IsWord(u[0]), u[1..]);
    }
  }

  /** After a word character a bearer scan copies the next character. */
  lemma BearerScanStep(u: string)
    requires u != ""
    ensures Scan(Bearer, true, u) == [u[0]] + Scan(Bearer, IsWord(u[0]), u[1..])
  {
    BearerStartIsHead(true, u);
  }

  lemma SliceAfterFirst(out: string, c: char, rest: string, k: nat)
    requires out == [c] + rest && 0 < k <= |out|
    ensures out[..k] == [c] + rest[..k - 1] && out[k..] == rest[k - 1..]
  {
  }

  predicate Words(u: string, k: nat)
    requires k <= |u|
  {
    k == 0 || (IsWord(u[0]) && Words(u[1..], k - 1))
  }

  /** So it copies a whole run of word characters. */
  lemma {:induction false} BearerScanCopiesWord(u: string, k: nat)
    requires k <= |Scan(Bearer, true, u)| && Words(Scan(Bearer, true, u), k)
    ensures k <= |u| && u[..k] == Scan(Bearer, true, u)[..k]
    ensures Scan(Bearer, true, u)[k..] == Scan(Bearer, true, u[k..])
    decreases |u|
  {
    var out := Scan(Bearer, true, u);
    if k == 0 {
      assert u[0..] == u && out[0..] == out;
    } else {
      BearerScanStep(u);
      var rest := Scan(Bearer, IsWord(u[0]), u[1..]);
      assert out[1..] == rest;
      BearerScanCopiesWord(u[1..], k - 1);
      SliceAfterFirst(out, u[0], rest, k);
      SliceAfterFirst(u, u[0], u[1..], k);
    }
  }

  lemma SchemeIsWords(u: string)
    requires |u| >= 6 && Lower(u[..6]) == "bearer"
    ensures IsWord(u[0]) && Words(u[1..], 5)
  {
    forall i | 0 <= i < 6 ensures IsWord(u[i]) { assert Lower(u[..6])[i] == LowerChar(u[i]); }
    assert Words(u[6..], 0);
    assert u[1..][1..] == u[2..] && u[2..][1..] == u[3..] && u[3..][1..] == u[4..] && u[4..][1..] == u[5..];
    assert u[5..][1..] == u[6..];
    assert Words(u[4..], 2) by { assert Words(u[5..], 1); }
    assert Words(u[2..], 4) by { assert Words(u[3..], 3); }
  }

  /** The scheme name and the blank after it are copied from the input. */
  lemma BearerSchemeCopied(before: bool, u: string)
    requires u != "" && Head(Bearer, before, u).None?
    requires |Scan(Bearer, before, u)| > 6 && Lower(Scan(Bearer, before, u)[..6]) == "bearer"
    ensures |u| >= 6 && u[..6] == Scan(Bearer, before, u)[..6]
    ensures Scan(Bearer, before, u)[6..] == Scan(Bearer, true, u[6..])
  {
    var out := Scan(Bearer, before, u);
    SchemeIsWords(out);
    var rest := Scan(Bearer, true, u[1..]);
    assert out == [u[0]] + rest;
    assert out[1..] == rest;
    BearerScanCopiesWord(u[1..], 5);
    SliceAfterFirst(out, u[0], rest, 6);
    SliceAfterFirst(u, u[0], u[1..], 6);
  }

  /** Redacting what follows does not make a bearer match start at a character that was copied. */
  lemma BearerHeadKept(before: bool, u: string)
    requires u != "" && Head(Bearer, before, u).None?
    ensures Head(Bearer, before, Scan(Bearer, before, u)).None?
  {
    var out := Scan(Bearer, before, u);
    BearerStartIsHead(before, out);
    BearerStartIsHead(before, u);
    if BearerStart(before, out) {
      BearerSchemeCopied(before, u);
      assert out[6..][0] == out[6] && out[6..][1..] == out[7..];
      BearerScanStep(u[6..]);
      assert u[6] == out[6];
      assert u[6..][1..] == u[7..];
      SpacesThenTokenKept(Bearer, IsWord(u[6]), u[7..]);
    }
  }

  /** Redacting JSON Web Tokens makes no bearer match start at a character that was copied. */
  lemma BearerHeadKeptByJwtScan(before: bool, u: string)
    requires u != "" && Head(Bearer, before, u).None? && Head(Jwt, before, u).None?
    ensures Head(Bearer, before, Scan(Jwt, before, u)).None?
  {
    var out := Scan(Jwt, before, u);
    BearerStartIsHead(before, out);
    BearerStartIsHead(before, u);
    if BearerStart(before, out) {
      forall i | 0 <= i < 6 ensures out[i] != '[' { assert Lower(out[..6])[i] == LowerChar(out[i]); }
      JwtScanCopies(before, u, 7);
      assert u[..6] == u[..7][..6] && out[..6] == out[..7][..6];
      assert u[6] == u[..7][6] && out[6] == out[..7][6];
      SpacesThenTokenKept(Jwt, IsWord(u[6]), u[7..]);
    }
  }

  /** A match depends on the characters it covers and on the boundary at its end. */
  lemma JwtSplitTransfer(before: bool, u: string, v: string, d: nat, f: nat, n: nat)
    requires JwtSplit(before, u, d, f, n)
    requires n <= |v| && v[..n] == u[..n] && Boundary(before, v, n)
    ensures JwtSplit(before, v, d, f, n) && '[' !in u[..n]
  {
    forall i | 0 <= i < n ensures v[i] == u[i] { assert v[..n][i] == u[..n][i]; }
    assert v[..3] == u[..3];
    forall i | 0 <= i < n ensures u[i] != '[' { if i < 3 { assert u[i] == u[..3][i]; } }
  }

  lemma JwtSplitNoMarker(before: bool, u: string, d: nat, f: nat, n: nat)
    requires JwtSplit(before, u, d, f, n)
    ensures '[' !in u[..n]
  {
    JwtSplitTransfer(before, u, u, d, f, n);
  }

  lemma JwtHeadNeedsBoundary(before: bool, u: string)
    ensures Head(Jwt, before, u).Some? ==> !before
  {
    if Head(Jwt, before, u).Some? { assert u[0] == u[..3][0]; }
  }

  /** Where the output has a boundary the input has one too: the token a marker stands for began at a boundary. */
  lemma JwtScanKeepsBoundary(before: bool, u: string, n: nat)
    requires 0 < n <= |u| && n <= |Scan(Jwt, before, u)|
    requires u[..n] == Scan(Jwt, before, u)[..n]
    requires Scan(Jwt, before, u)[n..] == Scan(Jwt, IsWord(u[n - 1]), u[n..])
    requires Boundary(before, Scan(Jwt, before, u), n)
    ensures Boundary(before, u, n)
  {
    var out := Scan(Jwt, before, u);
    assert u[n - 1] == u[..n][n - 1] == out[..n][n - 1] == out[n - 1];
    if n < |u| {
      var tail := u[n..];
      var before' := IsWord(u[n - 1]);
      assert out[n..][0] == out[n];
      JwtHeadNeedsBoundary(before', tail);
    }
  }

  /** Redacting what follows makes no JSON Web Token start at a character that was copied. */
  lemma JwtHeadKept(before: bool, u: string)
    requires u != "" && Head(Jwt, before, u).None?
    ensures Head(Jwt, before, Scan(Jwt, before, u)).None?
  {
    var out := Scan(Jwt, before, u);
    if Head(Jwt, before, out).Some? {
      var n := Head(Jwt, before, out).value;
      assert Matches(Jwt, before, out, n) by { HeadIsLongestMatch(Jwt, before, out); }
      var d: nat, f: nat :| JwtSplit(before, out, d, f, n);
      JwtSplitNoMarker(before, out, d, f, n);
      JwtScanCopies(before, u, n);
      JwtScanKeepsBoundary(before, u, n);
      JwtSplitTransfer(before, out, u, d, f, n);
      assert Matches(Jwt, before, u, n);
      HeadIsLongestMatch(Jwt, before, u);
    }
  }

  /** A match that ends in a word character is not followed by another one. */
  lemma AfterMatch(p: Pattern, before: bool, u: string, n: nat)
    requires Head(p, before, u) == Some(n)
    ensures n < |u| && IsWord(u[n - 1]) ==> !IsWord(u[n])
  {
    if p == Bearer {
      var c := RunEnd(u, RunEnd(u, 6, IsSpace), IsB64Token);
      RunEndIsMaximal(u, RunEnd(u, 6, IsSpace), IsB64Token);
      RunEndIsMaximal(u, c, IsPad);
      assert n == c || IsPad(u[n - 1]);
    } else {
      var f := RunEnd(u, RunEnd(u, 3, IsBase64Url) + 1, IsBase64Url);
      BackToBoundaryIsLast(before, u, f + 11, RunEnd(u, f + 1, IsBase64Url));
    }
  }

  /** Putting a marker, which ends in a non-word character, where a match was creates no occurrence after it. */
  lemma RestAfterMatch(p: Pattern, q: Pattern, before: bool, u: string, n: nat)
    requires Head(p, before, u) == Some(n)
    requires Free(q, IsWord(u[n - 1]), Scan(p, IsWord(u[n - 1]), u[n..]))
    ensures Free(q, false, Scan(p, IsWord(u[n - 1]), u[n..]))
  {
    if n < |u| && IsWord(u[n - 1]) {
      AfterMatch(p, before, u, n);
      InertHead(p, true, u[n..]);
    }
    if IsWord(u[n - 1]) {
      FreeAfterInert(q, true, false, Scan(p, true, u[n..]));
    }
  }

  /** "Bearer " in front of a marker is not a bearer match. */
  lemma PrependScheme(before: bool, t: string)
    requires t != "" && t[0] == '[' && Free(Bearer, false, t)
    ensures Free(Bearer, before, "Bearer " + t)
  {
    PrependInert(Bearer, true, "earer ", t);
    var u := "Bearer " + t;
    assert u[1..] == "earer " + t;
    BearerStartIsHead(before, u);
    assert u[7..] == t;
  }

  // ----- main results -----

  lemma PrependReplacement(p: Pattern, before: bool, t: string)
    requires Free(p, false, t)
    ensures Free(p, before, Replacement(p) + t)
  {
    if p == Bearer {
      PrependMarker(p, false, t);
      PrependScheme(before, REDACTED + t);
      assert Replacement(p) + t == "Bearer " + (REDACTED + t);
    } else {
      PrependMarker(p, before, t);
    }
  }

  lemma PrependCopied(p: Pattern, before: bool, u: string)
    requires u != "" && Head(p, before, u).None?
    requires Free(p, IsWord(u[0]), Scan(p, IsWord(u[0]), u[1..]))
    ensures Free(p, before, Scan(p, before, u))
  {
    var out := Scan(p, before, u);
    assert out[1..] == Scan(p, IsWord(u[0]), u[1..]);
    if p == Bearer { BearerHeadKept(before, u); } else { JwtHeadKept(before, u); }
  }

  lemma PrependMatched(p: Pattern, before: bool, u: string, n: nat)
    requires Head(p, before, u) == Some(n)
    requires Free(p, IsWord(u[n - 1]), Scan(p, IsWord(u[n - 1]), u[n..]))
    ensures Free(p, before, Scan(p, before, u))
  {
    RestAfterMatch(p, p, before, u, n);
    PrependReplacement(p, before, Scan(p, IsWord(u[n - 1]), u[n..]));
  }

  /** A scan leaves no match of its own pattern behind. */
  lemma {:induction false} ScanIsFree(p: Pattern, before: bool, u: string)
    ensures Free(p, before, Scan(p, before, u))
    decreases |u|
  {
    var head := Head(p, before, u);
    if head.Some? {
      ScanIsFree(p, IsWord(u[head.value - 1]), u[head.value..]);
      PrependMatched(p, before, u, head.value);
    } else if u != "" {
      ScanIsFree(p, IsWord(u[0]), u[1..]);
      PrependCopied(p, before, u);
    }
  }

  /** Redacting JSON Web Tokens does not bring a bearer token back. */
  lemma {:induction false} JwtScanKeepsBearerFree(before: bool, u: string)
    requires Free(Bearer, before, u)
    ensures Free(Bearer, before, Scan(Jwt, before, u))
    decreases |u|
  {
    var out := Scan(Jwt, before, u);
    match Head(Jwt, before, u)
    case Some(n) =>
      FreeSuffix(Bearer, before, u, n);
      JwtScanKeepsBearerFree(IsWord(u[n - 1]), u[n..]);
      RestAfterMatch(Jwt, Bearer, before, u, n);
      PrependMarker(Bearer, before, Scan(Jwt, IsWord(u[n - 1]), u[n..]));
    case None =>
      if u != "" {
        JwtScanKeepsBearerFree(IsWord(u[0]), u[1..]);
        assert out[1..] == Scan(Jwt, IsWord(u[0]), u[1..]);
        BearerHeadKeptByJwtScan(before, u);
      }
  }

  /** Text without an occurrence passes through a scan unchanged. */
  lemma {:induction false} FreeIsUnchanged(p: Pattern, before: bool, u: string)
    requires Free(p, before, u)
    ensures Scan(p, before, u) == u
    decreases |u|
  {
    if u != "" {
      FreeIsUnchanged(p, IsWord(u[0]), u[1..]);
    }
  }

  function HeadAt(p: Pattern, before: bool, u: string, i: nat): Option<nat>
    requires i <= |u|
  {
    Head(p, Context(before, u, i), u[i..])
  }

  lemma ScanOneCopied(p: Pattern, before: bool, v: string)
    requires v != "" && Head(p, before, v).None?
    ensures Scan(p, before, v) == [v[0]] + Scan(p, IsWord(v[0]), v[1..])
  {
  }

  lemma ScanOneMatch(p: Pattern, before: bool, v: string, n: nat)
    requires Head(p, before, v) == Some(n)
    ensures Scan(p, before, v) == Replacement(p) + Scan(p, IsWord(v[n - 1]), v[n..])
  {
  }

  predicate NoHeadBefore(p: Pattern, before: bool, u: string, i: nat)
    requires i <= |u|
  {
    i == 0 || (HeadAt(p, before, u, i - 1).None? && NoHeadBefore(p, before, u, i - 1))
  }

  /** As long as no match begins, a scan copies. */
  lemma {:induction false} ScanCopiesUntilHead(p: Pattern, before: bool, u: string, i: nat)
    requires i <= |u| && NoHeadBefore(p, before, u, i)
    ensures Scan(p, before, u) == u[..i] + Scan(p, Context(before, u, i), u[i..])
    decreases i
  {
    if i == 0 {
      assert u[0..] == u;
    } else {
      ScanCopiesUntilHead(p, before, u, i - 1);
      ScanOneCopied(p, Context(before, u, i - 1), u[i - 1..]);
      CopyOne(u, i, Scan(p, Context(before, u, i), u[i..]));
    }
  }

  lemma CopyOne(u: string, i: nat, rest: string)
    requires 0 < i <= |u|
    ensures u[i - 1..][1..] == u[i..] && u[i - 1..][0] == u[i - 1]
    ensures u[..i - 1] + ([u[i - 1]] + rest) == u[..i] + rest
  {
    assert u[..i] == u[..i - 1] + [u[i - 1]];
  }

  lemma HeadAtIsLongest(p: Pattern, before: bool, u: string, i: nat)
    requires i <= |u|
    ensures HeadAt(p, before, u, i).Some? ==> MatchesAt(p, before, u, i, HeadAt(p, before, u, i).value)
    ensures forall n: nat | MatchesAt(p, before, u, i, n) ::
      HeadAt(p, before, u, i).Some? && n <= HeadAt(p, before, u, i).value
  {
    HeadIsLongestMatch(p, Context(before, u, i), u[i..]);
  }

  /** The occurrence of length n at i is the leftmost one, and the longest there. */
  ghost predicate LeftmostLongest(p: Pattern, before: bool, u: string, i: nat, n: nat) {
    && i <= |u| && MatchesAt(p, before, u, i, n)
    && (forall j: nat, m: nat | j < i :: !MatchesAt(p, before, u, j, m))
    && (forall m: nat :: MatchesAt(p, before, u, i, m) ==> m <= n)
  }

  lemma {:induction false} NoMatchNoHead(p: Pattern, before: bool, u: string, i: nat)
    requires i <= |u|
    requires forall j: nat, m: nat | j < i :: !MatchesAt(p, before, u, j, m)
    ensures NoHeadBefore(p, before, u, i)
    decreases i
  {
    if i > 0 {
      NoMatchNoHead(p, before, u, i - 1);
      HeadAtIsLongest(p, before, u, i - 1);
    }
  }

  lemma LeftmostLongestIsFirstHead(p: Pattern, before: bool, u: string, i: nat, n: nat)
    requires LeftmostLongest(p, before, u, i, n)
    ensures NoHeadBefore(p, before, u, i) && HeadAt(p, before, u, i) == Some(n)
  {
    HeadAtIsLongest(p, before, u, i);
    NoMatchNoHead(p, before, u, i);
  }

  lemma ScanAtFirstHead(p: Pattern, before: bool, u: string, i: nat, n: nat)
    requires i <= |u| && NoHeadBefore(p, before, u, i) && HeadAt(p, before, u, i) == Some(n)
    ensures Scan(p, before, u) ==
      u[..i] + (Replacement(p) + Scan(p, IsWord(u[i + n - 1]), u[i + n..]))
  {
    var v := u[i..];
    ScanCopiesUntilHead(p, before, u, i);
    ScanOneMatch(p, Context(before, u, i), v, n);
    assert v[n..] == u[i + n..];
  }

  /**
    A scan is global replacement of leftmost longest matches: when the first occurrence is at i,
    with greatest length n, the output is the text before it, the replacement, and the scan of the rest.
   */
  lemma ScanReplacesLeftmostLongest(p: Pattern, before: bool, u: string, i: nat, n: nat)
    requires LeftmostLongest(p, before, u, i, n)
    ensures 0 < n && i + n <= |u|
    ensures Scan(p, before, u) ==
      u[..i] + (Replacement(p) + Scan(p, IsWord(u[i + n - 1]), u[i + n..]))
  {
    LeftmostLongestIsFirstHead(p, before, u, i, n);
    ScanAtFirstHead(p, before, u, i, n);
  }

  // ----- replacement without a scanner -----

  /**
    Global replacement, read declaratively: either nothing in u matches and all of it is kept, or what
    comes before the leftmost longest match is kept, the match becomes r, and so on behind it.
   */
  ghost predicate Replaces(p: Pattern, r: string, before: bool, u: string, out: string)
    decreases |u|
  {
    || (Clean(p, before, u) && out == u)
    || (exists i: nat, n: nat, rest: string ::
          && LeftmostLongest(p, before, u, i, n) && 0 < n && i + n <= |u|
          && Replaces(p, r, IsWord(u[i + n - 1]), u[i + n..], rest) && out == u[..i] + (r + rest))
  }

  /** A text that is not clean has a leftmost longest match. */
  lemma {:induction false} FirstMatchExists(p: Pattern, before: bool, u: string, k: nat) returns (i: nat, n: nat)
    requires k <= |u| && NoHeadBefore(p, before, u, k) && !Free(p, Context(before, u, k), u[k..])
    ensures LeftmostLongest(p, before, u, i, n)
    decreases |u| - k
  {
    if HeadAt(p, before, u, k).Some? {
      i, n := k, HeadAt(p, before, u, k).value;
      FirstHeadIsLeftmostLongest(p, before, u, i, n);
    } else {
      assert u[k..][1..] == u[k + 1..] && u[k..][0] == u[k];
      i, n := FirstMatchExists(p, before, u, k + 1);
    }
  }

  lemma {:induction false} NoHeadNoMatch(p: Pattern, before: bool, u: string, i: nat, j: nat, m: nat)
    requires j < i <= |u| && NoHeadBefore(p, before, u, i)
    ensures !MatchesAt(p, before, u, j, m)
    decreases i
  {
    if j == i - 1 {
      HeadAtIsLongest(p, before, u, j);
    } else {
      NoHeadNoMatch(p, before, u, i - 1, j, m);
    }
  }

  lemma FirstHeadIsLeftmostLongest(p: Pattern, before: bool, u: string, i: nat, n: nat)
    requires i <= |u| && NoHeadBefore(p, before, u, i) && HeadAt(p, before, u, i) == Some(n)
    ensures LeftmostLongest(p, before, u, i, n)
  {
    HeadAtIsLongest(p, before, u, i);
    forall j: nat, m: nat | j < i ensures !MatchesAt(p, before, u, j, m) {
      NoHeadNoMatch(p, before, u, i, j, m);
    }
  }

  lemma ScanReplaces(p: Pattern, before: bool, u: string)
    ensures Replaces(p, Replacement(p), before, u, Scan(p, before, u))
    decreases |u|
  {
    FreeIsClean(p, before, u);
    if Free(p, before, u) {
      FreeIsUnchanged(p, before, u);
    } else {
      assert u[0..] == u;
      var i, n := FirstMatchExists(p, before, u, 0);
      ScanReplacesLeftmostLongest(p, before, u, i, n);
      ScanReplaces(p, IsWord(u[i + n - 1]), u[i + n..]);
    }
  }

  lemma {:induction false} ReplacesOnlyByScan(p: Pattern, before: bool, u: string, out: string)
    requires Replaces(p, Replacement(p), before, u, out)
    ensures out == Scan(p, before, u)
    decreases |u|
  {
    if Clean(p, before, u) && out == u {
      FreeIsClean(p, before, u);
      FreeIsUnchanged(p, before, u);
    } else {
      var i: nat, n: nat, rest: string :|
        && LeftmostLongest(p, before, u, i, n) && 0 < n && i + n <= |u|
        && Replaces(p, Replacement(p), IsWord(u[i + n - 1]), u[i + n..], rest)
        && out == u[..i] + (Replacement(p) + rest);
      ScanReplacesLeftmostLongest(p, before, u, i, n);
      ReplacesOnlyByScan(p, IsWord(u[i + n - 1]), u[i + n..], rest);
    }
  }

  /** The out text is the text with each bearer token replaced, and then each JSON Web Token. */
  ghost predicate Redacts(value: string, out: string) {
    exists middle :: Replaces(Bearer, "Bearer [REDACTED]", false, value, middle)
      && Replaces(Jwt, "[REDACTED]", false, middle, out)
  }

  /** Sanitizing a text is this replacement and no other: whatever is not part of a match is kept. */
  lemma SanitizeStringRedacts(value: string, out: string)
    ensures out == SanitizeString(value) <==> Redacts(value, out)
  {
    assert Replacement(Bearer) == "Bearer [REDACTED]" && Replacement(Jwt) == "[REDACTED]";
    var first := Scan(Bearer, false, value);
    ScanReplaces(Bearer, false, value);
    ScanReplaces(Jwt, false, first);
    if Redacts(value, out) {
      var middle :| Replaces(Bearer, "Bearer [REDACTED]", false, value, middle)
                    && Replaces(Jwt, "[REDACTED]", false, middle, out);
      ReplacesOnlyByScan(Bearer, false, value, middle);
      ReplacesOnlyByScan(Jwt, false, middle, out);
    }
  }

  /** The output of the sanitizer holds no token of either kind, although one scan runs over the other's output. */
  lemma SanitizedIsTokenFree(value: string)
    ensures TokenFree(SanitizeString(value))
  {
    var first := Scan(Bearer, false, value);
    ScanIsFree(Bearer, false, value);
    JwtScanKeepsBearerFree(false, first);
    ScanIsFree(Jwt, false, first);
    FreeIsClean(Bearer, false, Scan(Jwt, false, first));
    FreeIsClean(Jwt, false, Scan(Jwt, false, first));
  }

  /** The sanitizer changes a text exactly when the text holds a token. */
  lemma UnchangedIffTokenFree(value: string)
    ensures SanitizeString(value) == value <==> TokenFree(value)
  {
    SanitizedIsTokenFree(value);
    if TokenFree(value) {
      FreeIsClean(Bearer, false, value);
      FreeIsClean(Jwt, false, value);
      FreeIsUnchanged(Bearer, false, value);
      FreeIsUnchanged(Jwt, false, value);
    }
  }

  lemma SanitizeStringIdempotent(value: string)
    ensures SanitizeString(SanitizeString(value)) == SanitizeString(value)
  {
    SanitizedIsTokenFree(value);
    UnchangedIffTokenFree(SanitizeString(value));
  }

  lemma MarkerIsTokenFree()
    ensures TokenFree(REDACTED) && SanitizeString(REDACTED) == REDACTED
  {
    PrependMarker(Bearer, false, "");
    PrependMarker(Jwt, false, "");
    assert REDACTED + "" == REDACTED;
    FreeIsClean(Bearer, false, REDACTED);
    FreeIsClean(Jwt, false, REDACTED);
    UnchangedIffTokenFree(REDACTED);
  }
}
