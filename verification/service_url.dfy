/**
 * The service reference every ingress rule forwards to: an absolute URL
 * `scheme://host[:port][/path]`. The general URL parser of the host language
 * is replaced by the small, explicit check below: a scheme made of scheme
 * characters, then `//`, then a non-empty authority free of spaces and
 * control characters.
 */
module ServiceUrl {
  import opened Results

  /** A parsed service reference. `host` is the authority, port included. */
  datatype Url = Url(scheme: string, host: string, rest: string)

  /** Why a service string was refused. */
  datatype ServiceError =
    | NoSchemeOrHost   // not of the form scheme://host
    | IllegalHost      // the host holds a space or a control character

  predicate IsLetter(c: char) {
    'a' <= c <= 'z' || 'A' <= c <= 'Z'
  }

  predicate IsSchemeChar(c: char) {
    IsLetter(c) || '0' <= c <= '9' || c == '+' || c == '-' || c == '.'
  }

  /** A scheme starts with a letter and holds only letters, digits, `+`, `-` and `.`. */
  predicate ValidScheme(s: string) {
    |s| > 0 && IsLetter(s[0]) && forall i :: 0 <= i < |s| ==> IsSchemeChar(s[i])
  }

  /** Spaces and ASCII control characters may not appear in a host. */
  predicate IllegalHostChar(c: char) {
    c as int <= 0x20 || c as int == 0x7F
  }

  predicate ValidHost(h: string) {
    h != [] && '/' !in h && forall i :: 0 <= i < |h| ==> !IllegalHostChar(h[i])
  }

  /** The references a rule may carry: a scheme, a host, and a path that is empty or absolute. */
  predicate ValidUrl(u: Url) {
    ValidScheme(u.scheme) && ValidHost(u.host) && (u.rest == [] || u.rest[0] == '/')
  }

  /** The text of a reference; the inverse of ParseService. */
  function Format(u: Url): string {
    u.scheme + "://" + u.host + u.rest
  }

  /** The first position of `c` in `s`, if any. */
  function IndexOf(s: string, c: char): (r: Option<nat>)
    ensures r.Some? ==> r.value < |s| && s[r.value] == c && c !in s[..r.value]
    ensures r.None? ==> c !in s
  {
    if s == [] then None
    else if s[0] == c then Some(0)
    else
      match IndexOf(s[1..], c)
      case None => None
      case Some(i) =>
        assert s[..i + 1] == [s[0]] + s[1..][..i];
        Some(i + 1)
  }

  /** Splits an authority-and-path at its first `/`. */
  function SplitAuthority(a: string): (r: (string, string))
    ensures r.0 + r.1 == a && '/' !in r.0
    ensures r.1 == [] || r.1[0] == '/'
  {
    match IndexOf(a, '/')
    case None => (a, [])
    case Some(j) =>
      assert a[..j] + a[j..] == a;
      (a[..j], a[j..])
  }

  /** No character of `h` is illegal in a host; checked left to right. */
  predicate LegalHostChars(h: string)
    ensures LegalHostChars(h) <==> forall i :: 0 <= i < |h| ==> !IllegalHostChar(h[i])
  {
    h == [] || (!IllegalHostChar(h[0]) && LegalHostChars(h[1..]))
  }

  /**
   * Parses a service string. The scheme ends at the first `:`; `//` must
   * follow; the host runs up to the first `/` and the rest is the path.
   * `localhost:8000` is refused (it has no `//`, so no host), and so is
   * `https://local host:8000`.
   */
  function ParseService(s: string): (r: Result<Url, ServiceError>)
    ensures r.Success? ==> ValidUrl(r.value) && Format(r.value) == s
  {
    match IndexOf(s, ':')
    case None => Failure(NoSchemeOrHost)
    case Some(k) =>
      if !ValidScheme(s[..k]) || |s| < k + 3 || s[k + 1] != '/' || s[k + 2] != '/' then Failure(NoSchemeOrHost)
      else
        assert s == s[..k] + "://" + s[k + 3..] by {
          assert s == s[..k] + [s[k]] + s[k + 1..k + 3] + s[k + 3..];
        }
        ParseAuthority(s[..k], s[k + 3..])
  }

  /** The part of ParseService after `scheme://`. */
  function ParseAuthority(scheme: string, after: string): (r: Result<Url, ServiceError>)
    requires ValidScheme(scheme)
    ensures r.Success? ==> ValidUrl(r.value) && r.value.scheme == scheme && r.value.host + r.value.rest == after
  {
    var (host, rest) := SplitAuthority(after);
    if host == [] then Failure(NoSchemeOrHost)
    else if !LegalHostChars(host) then Failure(IllegalHost)
    else Success(Url(scheme, host, rest))
  }

  /**
   * Parsing the text of any reference whose scheme is valid, whose host has
   * no `/` and whose path is empty or absolute: it succeeds with that very
   * reference unless the host is empty or holds an illegal character.
   */
  lemma {:induction false} ParseFormatted(u: Url)
    requires ValidScheme(u.scheme) && '/' !in u.host && (u.rest == [] || u.rest[0] == '/')
    ensures ParseService(Format(u)) ==
      if u.host == [] then Failure(NoSchemeOrHost)
      else if !LegalHostChars(u.host) then Failure(IllegalHost)
      else Success(u)
  {
    var s := Format(u);
    var k := |u.scheme|;
    FormatLayout(u);
    IndexOfFirst(s, ':', k);
    assert ParseService(s) == ParseAuthority(u.scheme, u.host + u.rest);
    SplitAuthorityOf(u.host, u.rest);
  }

  /** Where the parts of a reference with a valid scheme sit in its text. */
  lemma FormatLayout(u: Url)
    requires ValidScheme(u.scheme)
    ensures var s, k := Format(u), |u.scheme|;
      && |s| >= k + 3 && s[..k] == u.scheme && ':' !in u.scheme
      && s[k] == ':' && s[k + 1] == '/' && s[k + 2] == '/' && s[k + 3..] == u.host + u.rest
  {
    var s := Format(u);
    var k := |u.scheme|;
    assert ':' !in u.scheme by {
      forall i | 0 <= i < k ensures u.scheme[i] != ':' {
        assert IsSchemeChar(u.scheme[i]);
      }
    }
    assert s == u.scheme + ([':'] + "//" + u.host + u.rest);
    assert s[k + 1..] == "//" + u.host + u.rest;
  }

  /** A valid reference survives formatting and parsing unchanged. */
  lemma {:induction false} ParseFormat(u: Url)
    requires ValidUrl(u)
    ensures ParseService(Format(u)) == Success(u)
  {
    ParseFormatted(u);
  }

  /** A valid reference is determined by its text. */
  lemma {:induction false} FormatInjective(u: Url, v: Url)
    requires ValidUrl(u) && ValidUrl(v) && Format(u) == Format(v)
    ensures u == v
  {
    ParseFormat(u);
    ParseFormat(v);
  }

  /** Text whose first `:` is not followed by `/` names no host: `localhost:8000` is refused. */
  lemma SchemeWithoutSlashesRejected(scheme: string, tail: string)
    requires ':' !in scheme && (tail == [] || tail[0] != '/')
    ensures ParseService(scheme + ":" + tail) == Failure(NoSchemeOrHost)
  {
    var s := scheme + ":" + tail;
    var k := |scheme|;
    assert s[k] == ':' && s[..k] == scheme;
    IndexOfFirst(s, ':', k);
    if |s| >= k + 2 {
      assert s[k + 1] == tail[0];
    }
  }

  /** IndexOf finds the first occurrence and no other. */
  lemma IndexOfFirst(s: string, c: char, k: nat)
    requires k < |s| && s[k] == c && c !in s[..k]
    ensures IndexOf(s, c) == Some(k)
  {
  }

  /** Splitting a host followed by an absolute path gives back the two. */
  lemma SplitAuthorityOf(host: string, rest: string)
    requires '/' !in host && (rest == [] || rest[0] == '/')
    ensures SplitAuthority(host + rest) == (host, rest)
  {
    var a := host + rest;
    if rest != [] {
      assert a[|host|] == '/' && a[..|host|] == host;
      IndexOfFirst(a, '/', |host|);
    } else {
      assert a == host;
    }
  }
}
