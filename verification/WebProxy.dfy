/** Redirects kept inside `/proxy/{port}/` by `internal/webproxy/webproxy.go`, and the parser that reads them back. */
module WebProxy {
  import opened Wrappers
  import opened Text
  import Decimal

  const PREFIX := "/proxy/"

  datatype Target = Target(port: int, rest: string)

  /** `strings.Cut(tail, "/")`: the text before the first slash and the text after it. */
  function CutSlash(tail: string): (string, string) {
    var at := IndexOf(tail, '/');
    if at < 0 then (tail, "") else (tail[..at], tail[at + 1..])
  }

  /** `parseTarget`: `/proxy/8000/foo/bar` is port 8000 and `foo/bar`. */
  function ParseTarget(path: string): Option<Target> {
    if !(PREFIX <= path) then None
    else
      var (portText, rest) := CutSlash(path[|PREFIX|..]);
      match Decimal.Atoi(portText)
      case None => None
      case Some(port) => Some(Target(port, rest))
  }

  /** What `url.Parse` yields of a redirect target. */
  datatype Url = Url(host: string, hostname: string, path: string, rawQuery: string)

  /** `rewriteLocation`, for any URL parser. */
  function RewriteLocation(parse: string -> Option<Url>, loc: string, port: int): string {
    if PREFIX <= loc then loc
    else if parse(loc).Some? && parse(loc).value.host != "" then
      var u := parse(loc).value;
      if u.hostname == "127.0.0.1" || u.hostname == "localhost" then
        PREFIX + Decimal.FormatInt(port) + "/" + TrimPrefix(u.path, "/")
        + (if u.rawQuery != "" then "?" + u.rawQuery else "")
      else loc
    else if "/" <= loc then PREFIX + Decimal.FormatInt(port) + loc
    else loc
  }

  /** A reference with one leading slash names no host (section 4.2 of RFC 3986). */
  ghost predicate NoHostInPaths(parse: string -> Option<Url>) {
    forall loc {:trigger parse(loc)} :: "/" <= loc && !("//" <= loc) && parse(loc).Some? ==> parse(loc).value.host == ""
  }

  lemma FormatHasNoSlash(n: int)
    ensures '/' !in Decimal.FormatInt(n)
  {
  }

  lemma ParseFormatted(port: int, rest: string)
    requires Decimal.MIN_INT <= port <= Decimal.MAX_INT
    ensures ParseTarget(PREFIX + Decimal.FormatInt(port) + "/" + rest) == Some(Target(port, rest))
  {
    hide IndexOf, Decimal.Atoi, Decimal.FormatInt;
    var digits := Decimal.FormatInt(port);
    var path := PREFIX + digits + "/" + rest;
    FormatHasNoSlash(port);
    assert path[|PREFIX|..] == digits + ['/'] + rest;
    IndexOfAt(digits, '/', rest);
    var tail := digits + ['/'] + rest;
    assert tail[..|digits|] == digits && tail[|digits| + 1..] == rest;
    Decimal.AtoiFormat(port);
  }

  /** A path on the server's own root comes back as the same path on the same port, unless it already names a proxy. */
  lemma RootRelativeRoundTrip(parse: string -> Option<Url>, loc: string, port: int)
    requires NoHostInPaths(parse) && "/" <= loc && !("//" <= loc)
    requires Decimal.MIN_INT <= port <= Decimal.MAX_INT
    ensures ParseTarget(RewriteLocation(parse, loc, port)) == Some(Target(port, loc[1..])) <==> !(PREFIX <= loc)
  {
    hide Decimal.Atoi, Decimal.FormatInt;
    if PREFIX <= loc {
      RestIsShorter(loc);
    } else {
      assert loc == "/" + loc[1..];
      var digits := Decimal.FormatInt(port);
      assert PREFIX + digits + loc == PREFIX + digits + "/" + loc[1..];
      ParseFormatted(port, loc[1..]);
    }
  }

  /** A redirect that already names a proxy is read with its own port, and with less than its whole path. */
  lemma RestIsShorter(loc: string)
    requires PREFIX <= loc
    ensures ParseTarget(loc).Some? ==> |ParseTarget(loc).value.rest| < |loc| - 1
  {
  }

  /** A redirect to the same machine comes back as its path, and query, on the proxied port. */
  lemma LocalhostRoundTrip(parse: string -> Option<Url>, loc: string, port: int)
    requires parse(loc).Some? && parse(loc).value.host != "" && !(PREFIX <= loc)
    requires parse(loc).value.hostname == "127.0.0.1" || parse(loc).value.hostname == "localhost"
    requires Decimal.MIN_INT <= port <= Decimal.MAX_INT
    ensures var u := parse(loc).value;
            ParseTarget(RewriteLocation(parse, loc, port)) ==
            Some(Target(port, TrimPrefix(u.path, "/") + if u.rawQuery != "" then "?" + u.rawQuery else ""))
  {
    hide Decimal.Atoi, Decimal.FormatInt, ParseTarget;
    var u := parse(loc).value;
    var digits, path := Decimal.FormatInt(port), TrimPrefix(u.path, "/");
    var query := if u.rawQuery != "" then "?" + u.rawQuery else "";
    assert PREFIX + digits + "/" + path + query == PREFIX + digits + "/" + (path + query);
    ParseFormatted(port, path + query);
  }

  /** On every input, with any URL parser, rewriting twice changes nothing more; external redirects are left alone. */
  lemma RewriteIdempotent(parse: string -> Option<Url>, loc: string, port: int)
    ensures var once := RewriteLocation(parse, loc, port);
            RewriteLocation(parse, once, port) == once && (once == loc || PREFIX <= once)
  {
  }

  /**
   * What is left alone: redirects that name a proxy already, redirects to any other machine, and texts that are
   * neither rooted nor name a host. And only a rooted text without a host is prefixed as it stands.
   */
  lemma LeftAlone(parse: string -> Option<Url>, loc: string, port: int)
    ensures var elsewhere := parse(loc).Some? && parse(loc).value.host != "";
            var local := elsewhere &&
                         (parse(loc).value.hostname == "127.0.0.1" || parse(loc).value.hostname == "localhost");
            ("/proxy/" <= loc ==> RewriteLocation(parse, loc, port) == loc) &&
            (elsewhere && !local ==> RewriteLocation(parse, loc, port) == loc) &&
            (!elsewhere && !("/" <= loc) ==> RewriteLocation(parse, loc, port) == loc) &&
            (!elsewhere && "/" <= loc && !("/proxy/" <= loc) ==>
               RewriteLocation(parse, loc, port) == "/proxy/" + Decimal.FormatInt(port) + loc)
  {
    hide Decimal.FormatInt;
  }

  /** The parser reads nothing but `/proxy/`, a decimal number, and then the end or a slash and the rest. */
  lemma ParseTargetExact(path: string)
    ensures ParseTarget(path).Some? ==>
              exists digits: string ::
                '/' !in digits && Decimal.Atoi(digits) == Some(ParseTarget(path).value.port) &&
                (path == "/proxy/" + digits + "/" + ParseTarget(path).value.rest ||
                 (path == "/proxy/" + digits && ParseTarget(path).value.rest == ""))
  {
    hide IndexOf, Decimal.Atoi;
    if ParseTarget(path).Some? {
      var tail := path[7..];
      var at := IndexOf(tail, '/');
      var digits := if at < 0 then tail else tail[..at];
      assert path == "/proxy/" + tail;
      if at >= 0 {
        assert tail == digits + "/" + tail[at + 1..];
        assert path == "/proxy/" + digits + "/" + tail[at + 1..];
      }
      assert '/' !in digits && Decimal.Atoi(digits) == Some(ParseTarget(path).value.port);
    }
  }

  /** And it reads every such path, with that number. */
  lemma ParseTargetReads(digits: string, rest: string)
    requires '/' !in digits
    ensures ParseTarget("/proxy/" + digits + "/" + rest) ==
            match Decimal.Atoi(digits)
            case None => None
            case Some(port) => Some(Target(port, rest))
    ensures ParseTarget("/proxy/" + digits) ==
            match Decimal.Atoi(digits)
            case None => None
            case Some(port) => Some(Target(port, ""))
  {
    hide IndexOf, Decimal.Atoi;
    var tail := digits + ['/'] + rest;
    assert ("/proxy/" + digits + "/" + rest)[7..] == tail && ("/proxy/" + digits)[7..] == digits;
    IndexOfAt(digits, '/', rest);
    assert tail[..|digits|] == digits && tail[|digits| + 1..] == rest;
  }
}
