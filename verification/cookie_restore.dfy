/**
 Session cookie jars, and restoring a batch of exported cookies into one. A jar is an object that
 records what was added to it; how it matches and stores cookies is the cookie library's affair.
 */
module CookieRestore {
  import opened Wrappers
  import opened Text
  import opened CookieExpiry

  datatype SameSite = Lax | Strict | NoneSent

  /** A JavaScript number: a finite one, or an infinity or NaN. */
  datatype Number = Finite(value: real) | NonFinite

  datatype CookieInput = CookieInput(
    name: string,
    value: string,
    domain: Option<string>,
    path: Option<string>,
    secure: bool,
    httpOnly: bool,
    sameSite: Option<string>,
    expiresAtMs: Option<Number>,
    url: Option<string>)

  datatype Cookie = Cookie(
    name: string,
    value: string,
    domain: Option<string>,
    path: string,
    secure: bool,
    httpOnly: bool,
    sameSite: Option<SameSite>,
    expires: Option<int>)

  /** A cookie and the URI under which it is added. */
  datatype Prepared = Prepared(cookie: Cookie, uri: string)

  datatype RestoreError =
    | BadDefaultUrl
    | EmptyName(index: nat)
    | BadUrl(index: nat)
    | NoScope(index: nat)
    | BadDomainOrPath(index: nat)
    | BadSameSite(index: nat)
    | NonFiniteExpiry(index: nat)
    | ExpiryOutOfRange(index: nat)

  /** The URI library: the cookie-scoping host of a URL, and whether a URI parses. */
  datatype UriLibrary = UriLibrary(hostOf: string -> Option<string>, parses: string -> bool)

  function TrimDots(s: string): string {
    if s != "" && s[0] == '.' then TrimDots(s[1..]) else s
  }

  /** A blank domain counts as none. */
  function DomainOf(input: CookieInput): Option<string> {
    if input.domain.Some? && Trim(input.domain.value) != "" then Some(Trim(input.domain.value)) else None
  }

  function HostOf(lib: UriLibrary, input: CookieInput, index: nat, defaultHost: Option<string>): Result<string, RestoreError> {
    match DomainOf(input)
    case Some(domain) => Ok(TrimDots(domain))
    case None =>
      match input.url
      case Some(url) => (match lib.hostOf(url) case Some(host) => Ok(host) case None => Err(BadUrl(index)))
      case None => (match defaultHost case Some(host) => Ok(host) case None => Err(NoScope(index)))
  }

  function PathOf(input: CookieInput): string {
    if input.path.Some? && Trim(input.path.value) != "" && Trim(input.path.value)[0] == '/' then
      Trim(input.path.value)
    else "/"
  }

  function ParseSameSite(text: Option<string>, index: nat): Result<Option<SameSite>, RestoreError> {
    match text
    case None => Ok(None)
    case Some(value) =>
      var key := Lower(Trim(value));
      if key == "lax" then Ok(Some(Lax))
      else if key == "strict" then Ok(Some(Strict))
      else if key == "none" then Ok(Some(NoneSent))
      else Err(BadSameSite(index))
  }

  function ParseExpiry(expiresAtMs: Option<Number>, index: nat): Result<Option<int>, RestoreError> {
    match expiresAtMs
    case None => Ok(None)
    case Some(NonFinite) => Err(NonFiniteExpiry(index))
    case Some(Finite(ms)) =>
      match ImportExpiry(ms)
      case Some(nanos) => Ok(Some(nanos))
      case None => Err(ExpiryOutOfRange(index))
  }

  /** Validates one cookie; the checks run in this order. */
  function Prepare(lib: UriLibrary, input: CookieInput, index: nat, defaultHost: Option<string>): Result<Prepared, RestoreError> {
    if Trim(input.name) == "" then Err(EmptyName(index))
    else
      match HostOf(lib, input, index, defaultHost)
      case Err(error) => Err(error)
      case Ok(host) =>
        var uri := "https://" + host + PathOf(input);
        if !lib.parses(uri) then Err(BadDomainOrPath(index))
        else
          match ParseSameSite(input.sameSite, index)
          case Err(error) => Err(error)
          case Ok(sameSite) =>
            match ParseExpiry(input.expiresAtMs, index)
            case Err(error) => Err(error)
            case Ok(expires) =>
              Ok(Prepared(
                Cookie(Trim(input.name), input.value, DomainOf(input), PathOf(input),
                       input.secure, input.httpOnly, sameSite, expires),
                uri))
  }

  /** The host that cookies without a scope of their own fall back to. */
  function DefaultHost(lib: UriLibrary, defaultUrl: Option<string>): Option<string> {
    match defaultUrl case Some(url) => lib.hostOf(url) case None => None
  }

  predicate DefaultUrlOk(lib: UriLibrary, defaultUrl: Option<string>) {
    defaultUrl.Some? ==> lib.hostOf(defaultUrl.value).Some?
  }

  predicate AllValid(lib: UriLibrary, inputs: seq<CookieInput>, defaultUrl: Option<string>) {
    && DefaultUrlOk(lib, defaultUrl)
    && forall i :: 0 <= i < |inputs| ==> Prepare(lib, inputs[i], i, DefaultHost(lib, defaultUrl)).Ok?
  }

  function PreparedBatch(lib: UriLibrary, inputs: seq<CookieInput>, defaultUrl: Option<string>): seq<Prepared>
    requires AllValid(lib, inputs, defaultUrl)
  {
    seq(|inputs|, i requires 0 <= i < |inputs| => Prepare(lib, inputs[i], i, DefaultHost(lib, defaultUrl)).value)
  }

  // ----- What a restored cookie is, field by field -----

  predicate HasDomain(input: CookieInput) {
    input.domain.Some? && Trim(input.domain.value) != ""
  }

  /** `rest` is the text without its leading dots. */
  predicate WithoutLeadingDots(text: string, rest: string) {
    && |rest| <= |text| && rest == text[|text| - |rest|..]
    && (forall i :: 0 <= i < |text| - |rest| ==> text[i] == '.')
    && (rest != "" ==> rest[0] != '.')
  }

  /** The host that the cookie belongs to: that of its domain, its own URL or the default URL. */
  predicate BelongsTo(lib: UriLibrary, input: CookieInput, defaultUrl: Option<string>, host: string) {
    if HasDomain(input) then WithoutLeadingDots(Trim(input.domain.value), host)
    else if input.url.Some? then lib.hostOf(input.url.value) == Some(host)
    else defaultUrl.Some? && lib.hostOf(defaultUrl.value) == Some(host)
  }

  /** The path given, if it is absolute, and the root otherwise. */
  predicate HasPath(input: CookieInput, path: string) {
    if input.path.Some? && |Trim(input.path.value)| > 0 && Trim(input.path.value)[0] == '/' then
      path == Trim(input.path.value)
    else path == "/"
  }

  predicate SameSiteIs(text: Option<string>, sameSite: Option<SameSite>) {
    if text.None? then sameSite.None?
    else
      match sameSite
      case Some(Lax) => Lower(Trim(text.value)) == "lax"
      case Some(Strict) => Lower(Trim(text.value)) == "strict"
      case Some(NoneSent) => Lower(Trim(text.value)) == "none"
      case None => false
  }

  predicate SameSiteOk(text: Option<string>) {
    text.Some? ==> Lower(Trim(text.value)) in {"lax", "strict", "none"}
  }

  /** An expiry must be finite and in range, and is then stored with its exact nanoseconds, unless it overflows. */
  predicate ExpiresAt(ms: Option<Number>, expires: Option<int>) {
    match ms
    case None => expires.None?
    case Some(NonFinite) => false
    case Some(Finite(x)) =>
      expires.Some? && (!Overflows(x) ==> InRange(TrueNanos(x)) && expires.value == TrueNanos(x))
  }

  predicate ExpiryOk(ms: Option<Number>) {
    match ms
    case None => true
    case Some(NonFinite) => false
    case Some(Finite(x)) => if Overflows(x) then ImportExpiry(x).Some? else InRange(TrueNanos(x))
  }

  /** The prepared cookie has everything from the input, trimmed where that is due, and goes over https. */
  predicate Restores(lib: UriLibrary, input: CookieInput, defaultUrl: Option<string>, p: Prepared) {
    && p.cookie.name == Trim(input.name) && p.cookie.value == input.value
    && p.cookie.domain == (if HasDomain(input) then Some(Trim(input.domain.value)) else None)
    && HasPath(input, p.cookie.path)
    && p.cookie.secure == input.secure
    && p.cookie.httpOnly == input.httpOnly
    && SameSiteIs(input.sameSite, p.cookie.sameSite)
    && ExpiresAt(input.expiresAtMs, p.cookie.expires)
    && |p.uri| >= 8 + |p.cookie.path| && p.uri[..8] == "https://"
    && p.uri[|p.uri| - |p.cookie.path|..] == p.cookie.path
    && BelongsTo(lib, input, defaultUrl, p.uri[8..|p.uri| - |p.cookie.path|])
  }

  /** The conditions on an input; `host` and `path` are those it has. */
  predicate ValidWith(lib: UriLibrary, input: CookieInput, defaultUrl: Option<string>, host: string, path: string) {
    && Trim(input.name) != ""
    && BelongsTo(lib, input, defaultUrl, host) && HasPath(input, path)
    && lib.parses("https://" + host + path)
    && SameSiteOk(input.sameSite) && ExpiryOk(input.expiresAtMs)
  }

  ghost predicate ValidInput(lib: UriLibrary, input: CookieInput, defaultUrl: Option<string>) {
    exists host, path :: ValidWith(lib, input, defaultUrl, host, path)
  }

  lemma {:induction false} TrimDotsDrops(text: string) returns (n: nat)
    ensures n <= |text| && TrimDots(text) == text[n..]
    ensures forall i :: 0 <= i < n ==> text[i] == '.'
    ensures n < |text| ==> text[n] != '.'
  {
    if text != "" && text[0] == '.' {
      var k := TrimDotsDrops(text[1..]);
      n := k + 1;
      assert text[1..][k..] == text[n..];
      assert forall i :: 0 <= i < k ==> text[1..][i] == text[i + 1];
    } else {
      n := 0;
    }
  }

  lemma TrimDotsMeans(text: string)
    ensures WithoutLeadingDots(text, TrimDots(text))
  {
    var n := TrimDotsDrops(text);
  }

  lemma OnlyOneRest(text: string, a: string, b: string)
    requires WithoutLeadingDots(text, a) && WithoutLeadingDots(text, b)
    ensures a == b
  {
    if |a| < |b| {
      NotShorter(text, a, b);
    } else if |b| < |a| {
      NotShorter(text, b, a);
    }
  }

  lemma NotShorter(text: string, a: string, b: string)
    requires WithoutLeadingDots(text, a) && WithoutLeadingDots(text, b)
    ensures |a| >= |b|
  {
  }

  lemma HostMeans(lib: UriLibrary, input: CookieInput, index: nat, defaultUrl: Option<string>, host: string)
    requires DefaultUrlOk(lib, defaultUrl)
    ensures HostOf(lib, input, index, DefaultHost(lib, defaultUrl)) == Ok(host) <==>
      BelongsTo(lib, input, defaultUrl, host)
  {
    if HasDomain(input) {
      var text := Trim(input.domain.value);
      TrimDotsMeans(text);
      if WithoutLeadingDots(text, host) {
        OnlyOneRest(text, host, TrimDots(text));
      }
    }
  }

  lemma ExpiryMeans(ms: Option<Number>, index: nat)
    ensures ParseExpiry(ms, index).Ok? <==> ExpiryOk(ms)
    ensures ParseExpiry(ms, index).Ok? ==> ExpiresAt(ms, ParseExpiry(ms, index).value)
  {
    if ms.Some? && ms.value.Finite? && !Overflows(ms.value.value) {
      ImportIsExact(ms.value.value);
    }
  }

  lemma SameSiteMeans(text: Option<string>, index: nat)
    ensures ParseSameSite(text, index).Ok? <==> SameSiteOk(text)
    ensures ParseSameSite(text, index).Ok? ==> SameSiteIs(text, ParseSameSite(text, index).value)
  {
  }

  lemma UriParts(host: string, path: string)
    ensures var uri := "https://" + host + path;
      && |uri| == 8 + |host| + |path| && uri[..8] == "https://"
      && uri[8..|uri| - |path|] == host && uri[|uri| - |path|..] == path
  {
  }

  /** Preparation accepts exactly the valid inputs and keeps every field. */
  lemma PrepareMeans(lib: UriLibrary, input: CookieInput, index: nat, defaultUrl: Option<string>)
    requires DefaultUrlOk(lib, defaultUrl)
    ensures var p := Prepare(lib, input, index, DefaultHost(lib, defaultUrl));
      && (p.Ok? <==> ValidInput(lib, input, defaultUrl))
      && (p.Ok? ==> Restores(lib, input, defaultUrl, p.value))
  {
    ExpiryMeans(input.expiresAtMs, index);
    SameSiteMeans(input.sameSite, index);
    var host := HostOf(lib, input, index, DefaultHost(lib, defaultUrl));
    if host.Ok? {
      HostMeans(lib, input, index, defaultUrl, host.value);
      UriParts(host.value, PathOf(input));
      PrepareWithHost(lib, input, index, defaultUrl, host.value);
    } else {
      forall other ensures !BelongsTo(lib, input, defaultUrl, other) {
        HostMeans(lib, input, index, defaultUrl, other);
      }
    }
  }

  lemma PrepareWithHost(lib: UriLibrary, input: CookieInput, index: nat, defaultUrl: Option<string>, host: string)
    requires DefaultUrlOk(lib, defaultUrl)
    requires HostOf(lib, input, index, DefaultHost(lib, defaultUrl)) == Ok(host)
    ensures var p := Prepare(lib, input, index, DefaultHost(lib, defaultUrl));
      p.Ok? <==> ValidInput(lib, input, defaultUrl)
  {
    ExpiryMeans(input.expiresAtMs, index);
    SameSiteMeans(input.sameSite, index);
    HostMeans(lib, input, index, defaultUrl, host);
    if Prepare(lib, input, index, DefaultHost(lib, defaultUrl)).Ok? {
      assert ValidWith(lib, input, defaultUrl, host, PathOf(input));
    }
    if ValidInput(lib, input, defaultUrl) {
      var h, path :| ValidWith(lib, input, defaultUrl, h, path);
      HostMeans(lib, input, index, defaultUrl, h);
      assert h == host && path == PathOf(input);
    }
  }

  /** The default URL, if there is one, and every input are valid. */
  ghost predicate ValidBatch(lib: UriLibrary, inputs: seq<CookieInput>, defaultUrl: Option<string>) {
    && (defaultUrl.Some? ==> lib.hostOf(defaultUrl.value).Some?)
    && forall i :: 0 <= i < |inputs| ==> ValidInput(lib, inputs[i], defaultUrl)
  }

  /** The cookies are those of the batch, every one in its place, field by field. */
  predicate RestoresAll(lib: UriLibrary, inputs: seq<CookieInput>, defaultUrl: Option<string>, cookies: seq<Prepared>) {
    |cookies| == |inputs| && forall i :: 0 <= i < |inputs| ==> Restores(lib, inputs[i], defaultUrl, cookies[i])
  }

  /** The latest cookies are those of the batch. */
  predicate EndsWithBatch(lib: UriLibrary, inputs: seq<CookieInput>, defaultUrl: Option<string>, added: seq<Prepared>) {
    |added| >= |inputs| && RestoresAll(lib, inputs, defaultUrl, added[|added| - |inputs|..])
  }

  lemma BatchIsValid(lib: UriLibrary, inputs: seq<CookieInput>, defaultUrl: Option<string>)
    ensures AllValid(lib, inputs, defaultUrl) <==> ValidBatch(lib, inputs, defaultUrl)
  {
    if DefaultUrlOk(lib, defaultUrl) {
      forall i | 0 <= i < |inputs|
        ensures Prepare(lib, inputs[i], i, DefaultHost(lib, defaultUrl)).Ok? <==> ValidInput(lib, inputs[i], defaultUrl)
      {
        PrepareMeans(lib, inputs[i], i, defaultUrl);
      }
    }
  }

  lemma Restored(lib: UriLibrary, inputs: seq<CookieInput>, defaultUrl: Option<string>, i: nat)
    requires AllValid(lib, inputs, defaultUrl) && i < |inputs|
    ensures Restores(lib, inputs[i], defaultUrl, PreparedBatch(lib, inputs, defaultUrl)[i])
  {
    PrepareMeans(lib, inputs[i], i, defaultUrl);
  }

  lemma BatchIsRestored(lib: UriLibrary, inputs: seq<CookieInput>, defaultUrl: Option<string>)
    requires AllValid(lib, inputs, defaultUrl)
    ensures RestoresAll(lib, inputs, defaultUrl, PreparedBatch(lib, inputs, defaultUrl))
  {
    var prepared := PreparedBatch(lib, inputs, defaultUrl);
    forall i | 0 <= i < |inputs| ensures Restores(lib, inputs[i], defaultUrl, prepared[i]) {
      Restored(lib, inputs, defaultUrl, i);
    }
  }

  /** The whole batch: valid exactly if each input is, and every cookie in its place. */
  lemma BatchMeans(lib: UriLibrary, inputs: seq<CookieInput>, defaultUrl: Option<string>, before: seq<Prepared>)
    ensures AllValid(lib, inputs, defaultUrl) <==> ValidBatch(lib, inputs, defaultUrl)
    ensures AllValid(lib, inputs, defaultUrl) ==>
      EndsWithBatch(lib, inputs, defaultUrl, before + PreparedBatch(lib, inputs, defaultUrl))
  {
    BatchIsValid(lib, inputs, defaultUrl);
    if AllValid(lib, inputs, defaultUrl) {
      var prepared := PreparedBatch(lib, inputs, defaultUrl);
      BatchIsRestored(lib, inputs, defaultUrl);
      assert (before + prepared)[|before + prepared| - |inputs|..] == prepared;
    }
  }

  /** Which fault of an input is reported, the first of them in this order. */
  lemma PrepareErrors(lib: UriLibrary, input: CookieInput, index: nat, defaultUrl: Option<string>)
    requires DefaultUrlOk(lib, defaultUrl)
    requires Prepare(lib, input, index, DefaultHost(lib, defaultUrl)).Err?
    ensures var error := Prepare(lib, input, index, DefaultHost(lib, defaultUrl)).error;
      var inScope := exists host :: BelongsTo(lib, input, defaultUrl, host);
      error ==
        if Trim(input.name) == "" then EmptyName(index)
        else if !inScope then (if input.url.Some? then BadUrl(index) else NoScope(index))
        else if forall host, path :: BelongsTo(lib, input, defaultUrl, host) && HasPath(input, path) ==>
                  !lib.parses("https://" + host + path) then BadDomainOrPath(index)
        else if !SameSiteOk(input.sameSite) then BadSameSite(index)
        else if input.expiresAtMs == Some(NonFinite) then NonFiniteExpiry(index)
        else ExpiryOutOfRange(index)
  {
    ExpiryMeans(input.expiresAtMs, index);
    SameSiteMeans(input.sameSite, index);
    forall host ensures BelongsTo(lib, input, defaultUrl, host) <==>
      HostOf(lib, input, index, DefaultHost(lib, defaultUrl)) == Ok(host)
    {
      HostMeans(lib, input, index, defaultUrl, host);
    }
    assert HasPath(input, PathOf(input));
  }

  /** One more cookie of a batch that is valid so far. */
  lemma PreparedSnoc(lib: UriLibrary, inputs: seq<CookieInput>, i: nat, defaultUrl: Option<string>)
    requires i < |inputs| && AllValid(lib, inputs[..i], defaultUrl)
    ensures var p := Prepare(lib, inputs[i], i, DefaultHost(lib, defaultUrl));
      if p.Ok? then
        && AllValid(lib, inputs[..i + 1], defaultUrl)
        && PreparedBatch(lib, inputs[..i + 1], defaultUrl) == PreparedBatch(lib, inputs[..i], defaultUrl) + [p.value]
      else !AllValid(lib, inputs, defaultUrl)
  {
  }

  class Jar {
    var added: seq<Prepared>

    constructor ()
      ensures added == []
    {
      added := [];
    }

    method Add(cookie: Prepared)
      modifies this
      ensures added == old(added) + [cookie]
    {
      added := added + [cookie];
    }

    method AddAll(cookies: seq<Prepared>)
      modifies this
      ensures added == old(added) + cookies
    {
      for i := 0 to |cookies|
        invariant added == old(added) + cookies[..i]
      {
        Add(cookies[i]);
        assert cookies[..i + 1] == cookies[..i] + [cookies[i]];
      }
      assert cookies[..|cookies|] == cookies;
    }

    method Clear()
      modifies this
      ensures added == []
    {
      added := [];
    }
  }

  class SessionManager {
    var jars: map<string, Jar>

    /** Different sessions have different jars. */
    ghost predicate Valid()
      reads this
    {
      forall a, b :: a in jars && b in jars && a != b ==> jars[a] != jars[b]
    }

    constructor ()
      ensures Valid() && jars == map[]
    {
      jars := map[];
    }

    /** The session's jar; an unknown session gets a new, empty one. */
    method JarFor(session: string) returns (jar: Jar)
      requires Valid()
      modifies this
      ensures Valid()
      ensures session in old(jars) ==> jars == old(jars) && jar == old(jars)[session]
      ensures session !in old(jars) ==> fresh(jar) && jar.added == [] && jars == old(jars)[session := jar]
    {
      if session in jars {
        return jars[session];
      }
      jar := new Jar();
      jars := jars[session := jar];
    }

    /** An ephemeral request gets a jar of its own, which no session has; another one shares its session's. */
    method JarForRequest(ephemeral: bool, session: string) returns (jar: Jar)
      requires Valid()
      modifies this
      ensures Valid()
      ensures ephemeral ==>
        fresh(jar) && jar.added == [] && jars == old(jars) && forall id :: id in jars ==> jars[id] != jar
      ensures !ephemeral ==> session in jars && jar == jars[session] && (session in old(jars) ==> jars == old(jars))
    {
      if ephemeral {
        jar := new Jar();
      } else {
        jar := JarFor(session);
      }
    }

    /** Creating a session always gives it a new jar. */
    method CreateSession(session: string)
      requires Valid()
      modifies this
      ensures Valid()
      ensures session in jars && fresh(jars[session]) && jars[session].added == []
      ensures jars == old(jars)[session := jars[session]]
    {
      var jar := new Jar();
      jars := jars[session := jar];
    }

    method ClearSession(session: string) returns (found: bool)
      requires Valid()
      modifies if session in jars then {jars[session]} else {}
      ensures Valid()
      ensures found == (session in jars)
      ensures found ==> jars[session].added == []
    {
      if session !in jars {
        return false;
      }
      jars[session].Clear();
      return true;
    }

    method DropSession(session: string)
      requires Valid()
      modifies this
      ensures Valid()
      ensures jars == old(jars) - {session}
    {
      jars := jars - {session};
    }

    /**
     Restores a batch of cookies, all or nothing. If every cookie is valid they are all added to the
     session's jar in order and no other jar changes; if any is invalid, wherever it stands in the
     batch, nothing changes at all, not even which sessions exist.
     */
    method SetSessionCookies(session: string, cookies: seq<CookieInput>, defaultUrl: Option<string>, lib: UriLibrary)
      returns (r: Result<(), RestoreError>)
      requires Valid()
      modifies this, if session in jars then {jars[session]} else {}
      ensures Valid()
      ensures r.Ok? <==> AllValid(lib, cookies, defaultUrl)
      ensures r.Ok? <==> ValidBatch(lib, cookies, defaultUrl)
      ensures r.Err? ==>
        jars == old(jars) && forall id :: id in jars ==> jars[id].added == old(jars[id].added)
      ensures r.Err? && DefaultUrlOk(lib, defaultUrl) ==>
        exists i :: 0 <= i < |cookies|
          && Prepare(lib, cookies[i], i, DefaultHost(lib, defaultUrl)) == Err(r.error)
          && AllValid(lib, cookies[..i], defaultUrl)
      ensures r.Ok? ==>
        && session in jars
        && jars[session].added
             == (if session in old(jars) then old(jars[session].added) else [])
              + PreparedBatch(lib, cookies, defaultUrl)
        && (forall id :: id in old(jars) ==> id in jars && jars[id] == old(jars)[id])
        && (forall id :: id in old(jars) && id != session ==> jars[id].added == old(jars[id].added))
      ensures r.Ok? ==> EndsWithBatch(lib, cookies, defaultUrl, jars[session].added)
    {
      var defaultHost: Option<string> := None;
      if defaultUrl.Some? {
        defaultHost := lib.hostOf(defaultUrl.value);
        if defaultHost.None? {
          return Err(BadDefaultUrl);
        }
      }
      BatchMeans(lib, cookies, defaultUrl, if session in jars then jars[session].added else []);
      var prepared: seq<Prepared>;
      r, prepared := PrepareBatch(lib, cookies, defaultUrl, defaultHost);
      if r.Err? {
        return;
      }
      var jar := JarFor(session);
      jar.AddAll(prepared);
      return Ok(());
    }
  }

  /** The first pass validates the whole batch before anything is stored. */
  method PrepareBatch(lib: UriLibrary, cookies: seq<CookieInput>, defaultUrl: Option<string>, defaultHost: Option<string>)
    returns (r: Result<(), RestoreError>, prepared: seq<Prepared>)
    requires DefaultUrlOk(lib, defaultUrl) && defaultHost == DefaultHost(lib, defaultUrl)
    ensures r.Ok? <==> AllValid(lib, cookies, defaultUrl)
    ensures r.Ok? ==> prepared == PreparedBatch(lib, cookies, defaultUrl)
    ensures r.Err? ==>
      exists i :: 0 <= i < |cookies|
        && Prepare(lib, cookies[i], i, defaultHost) == Err(r.error)
        && AllValid(lib, cookies[..i], defaultUrl)
  {
    prepared := [];
    for i := 0 to |cookies|
      invariant AllValid(lib, cookies[..i], defaultUrl)
      invariant prepared == PreparedBatch(lib, cookies[..i], defaultUrl)
    {
      PreparedSnoc(lib, cookies, i, defaultUrl);
      match Prepare(lib, cookies[i], i, defaultHost) {
        case Err(error) =>
          return Err(error), prepared;
        case Ok(cookie) => prepared := prepared + [cookie];
      }
    }
    assert cookies[..|cookies|] == cookies;
    return Ok(()), prepared;
  }
}
