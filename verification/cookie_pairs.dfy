/**
 Cookie header strings: parsing them into pairs, and merging explicit cookie headers with those of
 the session's jar into one header for a WebSocket upgrade.
 */
module CookiePairs {
  import opened Wrappers
  import opened Sequences
  import opened Text

  type Pair = (string, string)

  const SEPARATOR: string := "; "

  predicate SeparatorAt(s: string, i: nat) {
    i + 1 < |s| && s[i] == ';' && s[i + 1] == ' '
  }

  /** The position of the first separator from `i` on, or the length. */
  function SeparatorFrom(s: string, i: nat): (n: nat)
    requires i <= |s|
    ensures i <= n <= |s| && (n < |s| ==> SeparatorAt(s, n))
    ensures forall k: nat :: i <= k < n ==> !SeparatorAt(s, k)
    decreases |s| - i
  {
    if i == |s| || SeparatorAt(s, i) then i else SeparatorFrom(s, i + 1)
  }

  function FirstSeparator(s: string): (n: nat)
    ensures n <= |s| && (n < |s| ==> SeparatorAt(s, n))
    ensures forall i: nat :: i < n ==> !SeparatorAt(s, i)
  {
    SeparatorFrom(s, 0)
  }

  function Split(s: string): (pieces: seq<string>)
    ensures |pieces| >= 1
    decreases |s|
  {
    var n := FirstSeparator(s);
    if n == |s| then [s] else [s[..n]] + Split(s[n + 2..])
  }

  ghost predicate NoSeparator(s: string) {
    forall i: nat :: !SeparatorAt(s, i)
  }

  /** The position of the first equals sign, or the length. */
  function FirstEquals(s: string): (n: nat)
    ensures n <= |s| && (n < |s| ==> s[n] == '=')
    ensures forall i :: 0 <= i < n ==> s[i] != '='
  {
    if s == "" || s[0] == '=' then 0 else 1 + FirstEquals(s[1..])
  }

  /** A piece without a name yields nothing; a piece without an equals sign has an empty value. */
  function ParsePair(piece: string): seq<Pair> {
    var n := FirstEquals(piece);
    var name := Trim(piece[..n]);
    var value := if n < |piece| then Trim(piece[n + 1..]) else Trim("");
    if name == "" then [] else [(name, value)]
  }

  function ParsePieces(pieces: seq<string>): seq<Pair> {
    if pieces == [] then [] else ParsePair(pieces[0]) + ParsePieces(pieces[1..])
  }

  function ParseCookiePairs(s: string): seq<Pair> {
    ParsePieces(Split(s))
  }

  // ----- Parsing a joined header -----

  function Join(segments: seq<string>): string {
    if segments == [] then ""
    else if |segments| == 1 then segments[0]
    else segments[0] + SEPARATOR + Join(segments[1..])
  }

  /** The separator cannot overlap itself or a neighbour, so a join splits where it was joined. */
  lemma SeparatorsOfJoin(a: string, b: string, i: nat)
    ensures i < |a| ==> (SeparatorAt(a + SEPARATOR + b, i) <==> SeparatorAt(a, i))
    ensures SeparatorAt(a + SEPARATOR + b, |a|)
  {
  }

  lemma FirstSeparatorIs(s: string, n: nat)
    requires SeparatorAt(s, n) && forall i: nat :: i < n ==> !SeparatorAt(s, i)
    ensures FirstSeparator(s) == n
  {
  }

  lemma FirstSeparatorOfJoin(a: string, b: string)
    ensures FirstSeparator(a + SEPARATOR + b) == FirstSeparator(a)
  {
    var s, n := a + SEPARATOR + b, FirstSeparator(a);
    forall i: nat | i < |a| ensures SeparatorAt(s, i) <==> SeparatorAt(a, i) {
      SeparatorsOfJoin(a, b, i);
    }
    SeparatorsOfJoin(a, b, |a|);
    FirstSeparatorIs(s, n);
  }

  lemma SplitsAfter(s: string, n: nat, piece: string, rest: string)
    requires n < |s| && FirstSeparator(s) == n && s[..n] == piece && s[n + 2..] == rest
    ensures Split(s) == [piece] + Split(rest)
  {
  }

  lemma SplitsBetween(a: string, b: string)
    requires FirstSeparator(a) == |a|
    ensures Split(a + SEPARATOR + b) == [a] + Split(b)
  {
    var s := a + SEPARATOR + b;
    FirstSeparatorOfJoin(a, b);
    assert s[..|a|] == a && s[|a| + 2..] == b;
    SplitsAfter(s, |a|, a, b);
  }

  lemma SplitsInside(a: string, b: string, n: nat)
    requires FirstSeparator(a) == n < |a|
    ensures Split(a + SEPARATOR + b) == [a[..n]] + Split(a[n + 2..] + SEPARATOR + b)
  {
    var s := a + SEPARATOR + b;
    FirstSeparatorOfJoin(a, b);
    assert s[..n] == a[..n] && s[n + 2..] == a[n + 2..] + SEPARATOR + b;
    SplitsAfter(s, n, a[..n], a[n + 2..] + SEPARATOR + b);
  }

  lemma {:induction false} SplitOfJoin(a: string, b: string)
    ensures Split(a + SEPARATOR + b) == Split(a) + Split(b)
    decreases |a|
  {
    var n := FirstSeparator(a);
    if n == |a| {
      SplitsBetween(a, b);
    } else {
      SplitsInside(a, b, n);
      SplitOfJoin(a[n + 2..], b);
      Associate([a[..n]], Split(a[n + 2..]), Split(b));
    }
  }

  lemma {:induction false} ParsePiecesConcat(a: seq<string>, b: seq<string>)
    ensures ParsePieces(a + b) == ParsePieces(a) + ParsePieces(b)
  {
    if a == [] {
      assert a + b == b;
    } else {
      assert (a + b)[1..] == a[1..] + b;
      ParsePiecesConcat(a[1..], b);
      Associate(ParsePair(a[0]), ParsePieces(a[1..]), ParsePieces(b));
    }
  }

  /** The pairs of all segments, one segment after the other. */
  function ParseAll(segments: seq<string>): seq<Pair> {
    if segments == [] then [] else ParseCookiePairs(segments[0]) + ParseAll(segments[1..])
  }

  /** For all strings whatsoever, parsing a joined header is concatenating the parses of its segments. */
  lemma {:induction false} ParsingIsHomomorphic(segments: seq<string>)
    ensures ParseCookiePairs(Join(segments)) == ParseAll(segments)
  {
    if |segments| > 1 {
      var rest := Join(segments[1..]);
      ParsingIsHomomorphic(segments[1..]);
      SplitOfJoin(segments[0], rest);
      ParsePiecesConcat(Split(segments[0]), Split(rest));
    } else if |segments| == 1 {
      assert ParseAll(segments) == ParseCookiePairs(segments[0]) + ParseAll([]);
    } else {
      assert Split("") == [""] && ParsePieces([""]) == ParsePair("") + ParsePieces([]);
    }
  }

  // ----- Printing and parsing -----

  /** What a pair must be like to survive printing. */
  ghost predicate WellFormed(pair: Pair) {
    && pair.0 != "" && IsTrimmed(pair.0) && NoSeparator(pair.0) && '=' !in pair.0
    && IsTrimmed(pair.1) && NoSeparator(pair.1)
  }

  function Print(pair: Pair): string {
    pair.0 + "=" + pair.1
  }

  function PrintAll(pairs: seq<Pair>): seq<string> {
    if pairs == [] then [] else [Print(pairs[0])] + PrintAll(pairs[1..])
  }

  lemma SlicesHaveNoSeparator(s: string, i: nat, j: nat)
    requires i <= j <= |s| && NoSeparator(s)
    ensures NoSeparator(s[i..j])
  {
    forall k: nat ensures !SeparatorAt(s[i..j], k) {
      assert !SeparatorAt(s, i + k);
    }
  }

  lemma {:induction false} TrimEndIsSlice(s: string) returns (j: nat)
    ensures j <= |s| && TrimEnd(s) == s[..j]
  {
    if s != "" && IsWhiteSpace(s[|s| - 1]) {
      j := TrimEndIsSlice(s[..|s| - 1]);
      assert s[..|s| - 1][..j] == s[..j];
    } else {
      j := |s|;
    }
  }

  lemma {:induction false} TrimStartIsSlice(s: string) returns (i: nat)
    ensures i <= |s| && TrimStart(s) == s[i..]
  {
    if s != "" && IsWhiteSpace(s[0]) {
      var k := TrimStartIsSlice(s[1..]);
      i := k + 1;
    } else {
      i := 0;
    }
  }

  lemma TrimHasNoSeparator(s: string)
    requires NoSeparator(s)
    ensures NoSeparator(Trim(s)) && ('=' !in s ==> '=' !in Trim(s))
  {
    var i := TrimStartIsSlice(s);
    SlicesHaveNoSeparator(s, i, |s|);
    assert s[i..|s|] == s[i..];
    var j := TrimEndIsSlice(s[i..]);
    SlicesHaveNoSeparator(s[i..], 0, j);
    assert s[i..][0..j] == s[i..][..j];
  }

  lemma {:induction false} PiecesHaveNoSeparator(s: string, k: nat)
    requires k < |Split(s)|
    ensures NoSeparator(Split(s)[k])
    decreases |s|
  {
    var n := FirstSeparator(s);
    if n == |s| {
      assert Split(s)[k] == s;
      forall i: nat ensures !SeparatorAt(s, i) {
      }
    } else if k == 0 {
      forall i: nat ensures !SeparatorAt(s[..n], i) {
        if i < n {
          assert !SeparatorAt(s, i);
        }
      }
    } else {
      PiecesHaveNoSeparator(s[n + 2..], k - 1);
    }
  }

  lemma ParsedPairIsWellFormed(piece: string)
    requires NoSeparator(piece)
    ensures forall i :: 0 <= i < |ParsePair(piece)| ==> WellFormed(ParsePair(piece)[i])
  {
    var n := FirstEquals(piece);
    SlicesHaveNoSeparator(piece, 0, n);
    assert piece[0..n] == piece[..n];
    TrimHasNoSeparator(piece[..n]);
    TrimTrims(piece[..n]);
    TrimTrims("");
    TrimHasNoSeparator("");
    if n < |piece| {
      SlicesHaveNoSeparator(piece, n + 1, |piece|);
      assert piece[n + 1..|piece|] == piece[n + 1..];
      TrimHasNoSeparator(piece[n + 1..]);
      TrimTrims(piece[n + 1..]);
    }
  }

  ghost predicate AllWellFormed(pairs: seq<Pair>) {
    forall i :: 0 <= i < |pairs| ==> WellFormed(pairs[i])
  }

  lemma {:induction false} PiecesAreWellFormed(pieces: seq<string>)
    requires forall k :: 0 <= k < |pieces| ==> NoSeparator(pieces[k])
    ensures AllWellFormed(ParsePieces(pieces))
  {
    if pieces != [] {
      ParsedPairIsWellFormed(pieces[0]);
      PiecesAreWellFormed(pieces[1..]);
    }
  }

  /** Parsing yields only well-formed pairs, whatever the string. */
  lemma ParsedIsWellFormed(s: string)
    ensures AllWellFormed(ParseCookiePairs(s))
  {
    forall k | 0 <= k < |Split(s)| ensures NoSeparator(Split(s)[k]) {
      PiecesHaveNoSeparator(s, k);
    }
    PiecesAreWellFormed(Split(s));
  }

  lemma PrintHasNoSeparator(pair: Pair)
    requires NoSeparator(pair.0) && NoSeparator(pair.1)
    ensures NoSeparator(Print(pair))
  {
    var s, n := Print(pair), |pair.0|;
    forall i: nat ensures !SeparatorAt(s, i) {
      if i < n {
        assert !SeparatorAt(pair.0, i) && s[i] == pair.0[i] && (i + 1 < n ==> s[i + 1] == pair.0[i + 1]);
        assert i + 1 == n ==> s[i + 1] == '=';
      } else if i == n {
        assert s[i] == '=';
      } else {
        assert !SeparatorAt(pair.1, i - n - 1) && i < |s| ==> s[i] == pair.1[i - n - 1];
      }
    }
  }

  lemma FirstEqualsOfPrint(pair: Pair)
    requires '=' !in pair.0
    ensures FirstEquals(Print(pair)) == |pair.0|
  {
    var s, n := Print(pair), |pair.0|;
    assert s[n] == '=';
    assert forall i :: 0 <= i < n ==> s[i] == pair.0[i];
    assert !(FirstEquals(s) < n) && !(n < FirstEquals(s));
  }

  lemma SinglePiece(s: string)
    requires NoSeparator(s)
    ensures ParseCookiePairs(s) == ParsePair(s)
  {
    assert FirstSeparator(s) == |s| by {
      assert !SeparatorAt(s, FirstSeparator(s));
    }
    assert ParsePieces([s]) == ParsePair(s) + ParsePieces([]);
  }

  /** A printed pair parses back exactly when it is well formed; values may contain equals signs. */
  lemma PairRoundTrip(pair: Pair)
    ensures ParseCookiePairs(Print(pair)) == [pair] <==> WellFormed(pair)
  {
    if WellFormed(pair) {
      var s, n := Print(pair), |pair.0|;
      PrintHasNoSeparator(pair);
      SinglePiece(s);
      FirstEqualsOfPrint(pair);
      assert s[..n] == pair.0 && s[n + 1..] == pair.1;
      TrimmedIsFixed(pair.0);
      TrimmedIsFixed(pair.1);
    }
    if ParseCookiePairs(Print(pair)) == [pair] {
      ParsedIsWellFormed(Print(pair));
      assert ParseCookiePairs(Print(pair))[0] == pair;
    }
  }

  lemma {:induction false} PrintAllParses(pairs: seq<Pair>)
    requires AllWellFormed(pairs)
    ensures ParseAll(PrintAll(pairs)) == pairs
  {
    if pairs != [] {
      PairRoundTrip(pairs[0]);
      PrintAllParses(pairs[1..]);
    }
  }

  /** Any list of well-formed pairs survives printing as one header. */
  lemma HeaderRoundTrip(pairs: seq<Pair>)
    requires AllWellFormed(pairs)
    ensures ParseCookiePairs(Join(PrintAll(pairs))) == pairs
  {
    ParsingIsHomomorphic(PrintAll(pairs));
    PrintAllParses(pairs);
  }

  // ----- Parsing, piece by piece -----

  /** Up to the first equals sign it is the name, behind it the value, both trimmed; no name, no pair. */
  lemma PieceWithEquals(name: string, value: string)
    requires '=' !in name && NoSeparator(name + "=" + value)
    ensures ParseCookiePairs(name + "=" + value) == if Trim(name) == "" then [] else [(Trim(name), Trim(value))]
  {
    SinglePiece(name + "=" + value);
    FirstEqualsOfPrint((name, value));
    assert Print((name, value)) == name + "=" + value;
    assert (name + "=" + value)[..|name|] == name && (name + "=" + value)[|name| + 1..] == value;
  }

  /** Without an equals sign all of it is the name, and the value is empty. */
  lemma PieceWithoutEquals(piece: string)
    requires '=' !in piece && NoSeparator(piece)
    ensures ParseCookiePairs(piece) == if Trim(piece) == "" then [] else [(Trim(piece), "")]
  {
    SinglePiece(piece);
    assert FirstEquals(piece) == |piece|;
    assert piece[..|piece|] == piece;
  }

  /** A semicolon with a space behind it separates, wherever it stands. */
  lemma ParsingSplits(a: string, b: string)
    ensures ParseCookiePairs(a + "; " + b) == ParseCookiePairs(a) + ParseCookiePairs(b)
  {
    SplitOfJoin(a, b);
    ParsePiecesConcat(Split(a), Split(b));
  }

  // The cookie pairs of RFC 6265, section 4.2.1.

  predicate IsTokenChar(c: char) {
    '!' <= c <= '~' && c !in "()<>@,;:\\\"/[]?={}"
  }

  predicate IsCookieOctet(c: char) {
    c == '!' || '#' <= c <= '+' || '-' <= c <= ':' || '<' <= c <= '[' || ']' <= c <= '~'
  }

  /** Cookie octets, possibly in double quotes. */
  predicate IsCookieValue(s: string) {
    || (forall i :: 0 <= i < |s| ==> IsCookieOctet(s[i]))
    || (|s| >= 2 && s[0] == '"' && s[|s| - 1] == '"' && forall i :: 1 <= i < |s| - 1 ==> IsCookieOctet(s[i]))
  }

  predicate IsCookiePair(pair: Pair) {
    && pair.0 != "" && (forall i :: 0 <= i < |pair.0| ==> IsTokenChar(pair.0[i]))
    && IsCookieValue(pair.1)
  }

  lemma CookiePairIsWellFormed(pair: Pair)
    requires IsCookiePair(pair)
    ensures WellFormed(pair)
  {
    assert forall i :: 0 <= i < |pair.1| ==> IsCookieOctet(pair.1[i]) || pair.1[i] == '"';
  }

  /** So every cookie string that conforms to RFC 6265 is parsed into the pairs it was printed from. */
  lemma StandardPairsSurvive(pairs: seq<Pair>)
    requires forall i :: 0 <= i < |pairs| ==> IsCookiePair(pairs[i])
    ensures ParseCookiePairs(Join(PrintAll(pairs))) == pairs
  {
    forall i | 0 <= i < |pairs| ensures WellFormed(pairs[i]) {
      CookiePairIsWellFormed(pairs[i]);
    }
    HeaderRoundTrip(pairs);
  }

  // ----- The upgrade request's cookie header -----

  type Header = (string, string)

  /** What the jar offers; None stands for a header value that is not visible ASCII. */
  datatype JarCookies =
    | Compressed(value: Option<string>)
    | Uncompressed(values: seq<Option<string>>)
    | Empty

  predicate IsCookie(header: Header) {
    Lower(header.0) == "cookie"
  }

  function Segment(value: string): seq<string> {
    if Trim(value) == "" then [] else [Trim(value)]
  }

  function CookieSegment(header: Header): seq<string> {
    if IsCookie(header) then Segment(header.1) else []
  }

  function ExplicitSegments(headers: seq<Header>): seq<string> {
    if headers == [] then []
    else CookieSegment(headers[0]) + ExplicitSegments(headers[1..])
  }

  function OptionSegment(value: Option<string>): seq<string> {
    if value.Some? then Segment(value.value) else []
  }

  function OptionSegments(values: seq<Option<string>>): seq<string> {
    if values == [] then [] else OptionSegment(values[0]) + OptionSegments(values[1..])
  }

  function JarSegments(cookies: JarCookies): seq<string> {
    match cookies
    case Compressed(value) => OptionSegments([value])
    case Uncompressed(values) => OptionSegments(values)
    case Empty => []
  }

  function OtherHeaders(headers: seq<Header>): seq<Header> {
    if headers == [] then []
    else (if IsCookie(headers[0]) then [] else [headers[0]]) + OtherHeaders(headers[1..])
  }

  lemma {:induction false} HeadersSnoc(headers: seq<Header>, header: Header)
    ensures ExplicitSegments(headers + [header]) == ExplicitSegments(headers) + CookieSegment(header)
    ensures OtherHeaders(headers + [header])
         == OtherHeaders(headers) + (if IsCookie(header) then [] else [header])
  {
    if headers == [] {
      assert ExplicitSegments([header]) == CookieSegment(header) + ExplicitSegments([]);
    } else {
      assert (headers + [header])[1..] == headers[1..] + [header];
      HeadersSnoc(headers[1..], header);
      Associate(CookieSegment(headers[0]), ExplicitSegments(headers[1..]), CookieSegment(header));
    }
  }

  lemma {:induction false} OptionSegmentsSnoc(values: seq<Option<string>>, value: Option<string>)
    ensures OptionSegments(values + [value]) == OptionSegments(values) + OptionSegment(value)
  {
    if values == [] {
      assert OptionSegments([value]) == OptionSegment(value) + OptionSegments([]);
    } else {
      assert (values + [value])[1..] == values[1..] + [value];
      OptionSegmentsSnoc(values[1..], value);
      Associate(OptionSegment(values[0]), OptionSegments(values[1..]), OptionSegment(value));
    }
  }

  /** The segments that the jar contributes. */
  method CollectJarSegments(cookies: JarCookies) returns (segments: seq<string>)
    ensures segments == JarSegments(cookies)
  {
    segments := [];
    match cookies {
      case Compressed(value) =>
        assert OptionSegments([value]) == OptionSegment(value) + OptionSegments([]);
        if value.Some? && Trim(value.value) != "" {
          segments := [Trim(value.value)];
        }
      case Uncompressed(values) =>
        for i := 0 to |values|
          invariant segments == OptionSegments(values[..i])
        {
          assert values[..i + 1] == values[..i] + [values[i]];
          OptionSegmentsSnoc(values[..i], values[i]);
          if values[i].Some? && Trim(values[i].value) != "" {
            segments := segments + [Trim(values[i].value)];
          }
        }
        assert values[..|values|] == values;
      case Empty =>
    }
  }

  /** Folds all cookie headers and the jar's cookies into one header behind the others. */
  method MergeCookieHeaders(headers: seq<Header>, cookies: JarCookies) returns (all: seq<Header>)
    ensures var segments := ExplicitSegments(headers) + JarSegments(cookies);
      all == OtherHeaders(headers) + if segments == [] then [] else [("Cookie", Join(segments))]
  {
    all := [];
    var segments: seq<string> := [];
    for i := 0 to |headers|
      invariant all == OtherHeaders(headers[..i]) && segments == ExplicitSegments(headers[..i])
    {
      assert headers[..i + 1] == headers[..i] + [headers[i]];
      HeadersSnoc(headers[..i], headers[i]);
      if IsCookie(headers[i]) {
        if Trim(headers[i].1) != "" {
          segments := segments + [Trim(headers[i].1)];
        }
      } else {
        all := all + [headers[i]];
      }
    }
    assert headers[..|headers|] == headers;
    var fromJar := CollectJarSegments(cookies);
    segments := segments + fromJar;
    if segments != [] {
      all := all + [("Cookie", Join(segments))];
    }
  }

  lemma {:induction false} OthersAreNoCookies(headers: seq<Header>)
    ensures forall i :: 0 <= i < |OtherHeaders(headers)| ==> !IsCookie(OtherHeaders(headers)[i])
  {
    if headers != [] {
      OthersAreNoCookies(headers[1..]);
    }
  }

  lemma {:induction false} ParseAllConcat(a: seq<string>, b: seq<string>)
    ensures ParseAll(a + b) == ParseAll(a) + ParseAll(b)
  {
    if a == [] {
      assert a + b == b;
    } else {
      assert (a + b)[1..] == a[1..] + b;
      ParseAllConcat(a[1..], b);
      Associate(ParseCookiePairs(a[0]), ParseAll(a[1..]), ParseAll(b));
    }
  }

  /**
   The merged headers contain at most one cookie header, the last one. Its pairs are those of the
   explicit cookie headers, in order, followed by those of the jar.
   */
  lemma MergedHeaderKeepsPairs(headers: seq<Header>, cookies: JarCookies, all: seq<Header>)
    requires var segments := ExplicitSegments(headers) + JarSegments(cookies);
      all == OtherHeaders(headers) + if segments == [] then [] else [("Cookie", Join(segments))]
    ensures forall i :: 0 <= i < |all| && IsCookie(all[i]) ==>
      && i == |all| - 1
      && ParseCookiePairs(all[i].1) == ParseAll(ExplicitSegments(headers)) + ParseAll(JarSegments(cookies))
  {
    OthersAreNoCookies(headers);
    ParsingIsHomomorphic(ExplicitSegments(headers) + JarSegments(cookies));
    ParseAllConcat(ExplicitSegments(headers), JarSegments(cookies));
  }

  // ----- What is merged, header by header -----

  /** Joining puts a semicolon and a space between neighbours and nothing else anywhere. */
  lemma {:induction false} JoinConcat(a: seq<string>, b: seq<string>)
    requires a != [] && b != []
    ensures Join(a + b) == Join(a) + "; " + Join(b)
    ensures forall s :: Join([s]) == s
  {
    if |a| == 1 {
      assert (a + b)[1..] == b;
    } else {
      assert (a + b)[1..] == a[1..] + b;
      JoinConcat(a[1..], b);
      assert a[0] + "; " + (Join(a[1..]) + "; " + Join(b)) == a[0] + "; " + Join(a[1..]) + "; " + Join(b);
    }
  }

  lemma IsCookieMeans(header: Header)
    ensures IsCookie(header) <==> SameIgnoringCase(header.0, "cookie")
  {
    assert Lower("cookie") == "cookie";
    LowerEqualMeans(header.0, "cookie");
  }

  lemma {:induction false} HeadersConcat(a: seq<Header>, b: seq<Header>)
    ensures ExplicitSegments(a + b) == ExplicitSegments(a) + ExplicitSegments(b)
    ensures OtherHeaders(a + b) == OtherHeaders(a) + OtherHeaders(b)
  {
    if b == [] {
      assert a + b == a;
    } else {
      var n := |b| - 1;
      assert a + b == a + b[..n] + [b[n]] && b == b[..n] + [b[n]];
      HeadersConcat(a, b[..n]);
      HeadersSnoc(a + b[..n], b[n]);
      HeadersSnoc(b[..n], b[n]);
    }
  }

  /**
   A header whose name is "cookie" in any case contributes its trimmed value, if it has one, at its place,
   and is dropped; any other header is kept at its place as it is.
   */
  lemma EachHeader(before: seq<Header>, header: Header, after: seq<Header>)
    ensures var segments := ExplicitSegments(before + [header] + after);
      var others := OtherHeaders(before + [header] + after);
      if SameIgnoringCase(header.0, "cookie") then
        && others == OtherHeaders(before) + OtherHeaders(after)
        && segments == ExplicitSegments(before)
                     + (if Trim(header.1) == "" then [] else [Trim(header.1)]) + ExplicitSegments(after)
      else
        && others == OtherHeaders(before) + [header] + OtherHeaders(after)
        && segments == ExplicitSegments(before) + ExplicitSegments(after)
  {
    IsCookieMeans(header);
    HeadersSnoc(before, header);
    HeadersConcat(before + [header], after);
  }

  lemma {:induction false} OptionSegmentsConcat(a: seq<Option<string>>, b: seq<Option<string>>)
    ensures OptionSegments(a + b) == OptionSegments(a) + OptionSegments(b)
  {
    if b == [] {
      assert a + b == a;
    } else {
      var n := |b| - 1;
      assert a + b == a + b[..n] + [b[n]] && b == b[..n] + [b[n]];
      OptionSegmentsConcat(a, b[..n]);
      OptionSegmentsSnoc(a + b[..n], b[n]);
      OptionSegmentsSnoc(b[..n], b[n]);
    }
  }

  /** Likewise for what the jar offers; a value that is no text contributes nothing. */
  lemma EachJarValue(before: seq<Option<string>>, value: Option<string>, after: seq<Option<string>>)
    ensures JarSegments(Empty) == [] && JarSegments(Compressed(value)) == JarSegments(Uncompressed([value]))
    ensures JarSegments(Uncompressed(before + [value] + after))
         == JarSegments(Uncompressed(before))
          + (if value.None? || Trim(value.value) == "" then [] else [Trim(value.value)])
          + JarSegments(Uncompressed(after))
  {
    OptionSegmentsSnoc(before, value);
    OptionSegmentsConcat(before + [value], after);
  }
}
