/** Uniform resource identifiers, taken apart by repeated splitting. */
module Uri {
  import opened Addresses
  import opened Options
  import opened Strings

  const SCHEME_END := "://"

  datatype Parts = Parts(
    scheme: string, authority: Endpoint, path: seq<string>, queries: seq<string>, fragments: seq<string>)

  // The pieces before the authority is read as an endpoint.
  datatype Pieces = Pieces(
    scheme: string, authority: string, path: seq<string>, queries: seq<string>, fragments: seq<string>)

  // A text with its remainder in front and the parts that extract_parts() leaves in its destination.
  function Front(s: string, d: string): string
    requires d != ""
  {
    Split(s, d)[0]
  }

  function Behind(s: string, d: string): seq<string>
    requires d != ""
  {
    Split(s, d)[1..]
  }

  // A text without "://" is its own scheme and is read as the rest as well.
  function Cut(s: string): Option<Pieces> {
    var parts := Split(s, SCHEME_END);
    if |parts| > 2 then None
    else
      var rest := parts[|parts| - 1];
      var front := Front(rest, "#");
      var hierarchy := Front(front, "?");
      Some(Pieces(parts[0], Front(hierarchy, "/"), Behind(hierarchy, "/"), Behind(front, "?"), Behind(rest, "#")))
  }

  function Parse(s: string): Option<Parts> {
    match Cut(s)
    case None => None
    case Some(p) =>
      match ParseEndpoint(p.authority)
      case None => None
      case Some(authority) => Some(Parts(p.scheme, authority, p.path, p.queries, p.fragments))
  }

  function Hierarchy(p: Pieces): string {
    Join([p.authority] + p.path, "/")
  }

  function WithQueries(p: Pieces): string {
    Join([Hierarchy(p)] + p.queries, "?")
  }

  function Rest(p: Pieces): string {
    Join([WithQueries(p)] + p.fragments, "#")
  }

  function Assemble(p: Pieces): string {
    p.scheme + SCHEME_END + Rest(p)
  }

  // The components as text, with the authority printed.
  function Printed(u: Parts): Pieces {
    Pieces(u.scheme, EndpointText(u.authority), u.path, u.queries, u.fragments)
  }

  lemma FrontAndBehind(s: string, d: string)
    requires d != ""
    ensures Join([Front(s, d)] + Behind(s, d), d) == s
  {
    JoinSplit(s, d);
    assert [Front(s, d)] + Behind(s, d) == Split(s, d);
  }

  /** Reassembling what was cut gives back the text exactly when "://" occurs in it. */
  lemma CutExactness(s: string)
    ensures Cut(s).Some? ==> (Assemble(Cut(s).value) == s <==> |Split(s, SCHEME_END)| == 2)
  {
    var parts := Split(s, SCHEME_END);
    JoinSplit(s, SCHEME_END);
    if |parts| <= 2 {
      var rest := parts[|parts| - 1];
      FrontAndBehind(rest, "#");
      FrontAndBehind(Front(rest, "#"), "?");
      FrontAndBehind(Front(Front(rest, "#"), "?"), "/");
      var p := Cut(s).value;
      assert Rest(p) == rest;
      assert |Assemble(p)| == |parts[0]| + 3 + |rest|;
      if |parts| == 2 {
        assert parts[1..] == [rest];
      }
    }
  }

  /** A parsed identifier with exactly one "://" is lost nowhere: its text is scheme, authority, path, queries and
      fragments put together again, where the authority's text parses to the authority. */
  lemma ParseIsLossless(s: string)
    requires Parse(s).Some? && |Split(s, SCHEME_END)| == 2
    ensures exists p: Pieces ::
              && Assemble(p) == s
              && ParseEndpoint(p.authority) == Some(Parse(s).value.authority)
              && p == Printed(Parse(s).value).(authority := p.authority)
  {
    CutExactness(s);
    var p := Cut(s).value;
    assert p == Printed(Parse(s).value).(authority := p.authority);
  }

  // No component holds the mark that ends it or a mark that is looked for before.
  ghost predicate WellFormed(p: Pieces) {
    && Free(p.scheme, SCHEME_END)
    && Free(Rest(p), SCHEME_END)
    && AllFree([WithQueries(p)] + p.fragments, "#")
    && AllFree([Hierarchy(p)] + p.queries, "?")
    && AllFree([p.authority] + p.path, "/")
  }

  lemma Marks()
    ensures Unbordered(SCHEME_END)
    ensures Unbordered("#")
    ensures Unbordered("?")
    ensures Unbordered("/")
  {
    var d := SCHEME_END;
    assert d[..1] == ":" && d[3 - 1..] == "/";
    assert d[..2] == ":/" && d[3 - 2..] == "//";
    CharFree("", '#');
    CharFree("", '?');
    CharFree("", '/');
  }

  // Splitting a joined text gives back front and parts exactly when none of them holds the mark.
  lemma JoinedExactness(a: string, ts: seq<string>, d: string)
    requires Unbordered(d)
    ensures Behind(Join([a] + ts, d), d) == ts <==> AllFree([a] + ts, d)
    ensures AllFree([a] + ts, d) ==> Front(Join([a] + ts, d), d) == a
  {
    var s := Join([a] + ts, d);
    SplitJoinExactness([a] + ts, d);
    assert ([a] + ts)[0] == a && ([a] + ts)[1..] == ts;
    if Behind(s, d) == ts {
      FrontAndBehind(s, d);
      JoinHead(Front(s, d), a, ts, d);
      assert [a] + ts == Split(s, d);
    }
  }

  /** Cutting an assembled text gives back its pieces exactly when they are well-formed. */
  lemma AssembleExactness(p: Pieces)
    ensures Cut(Assemble(p)) == Some(p) <==> WellFormed(p)
  {
    Marks();
    var s, rest, front, hierarchy := Assemble(p), Rest(p), WithQueries(p), Hierarchy(p);
    SchemeExactness(p.scheme, rest);
    JoinedExactness(front, p.fragments, "#");
    JoinedExactness(hierarchy, p.queries, "?");
    JoinedExactness(p.authority, p.path, "/");
    hide Split, Join, Free, AllFree, Unbordered;
    if Cut(s) == Some(p) {
      CutRest(s, p);
    }
  }

  lemma SchemeExactness(scheme: string, rest: string)
    ensures Split(scheme + SCHEME_END + rest, SCHEME_END) == [scheme, rest]
       <==> Free(scheme, SCHEME_END) && Free(rest, SCHEME_END)
  {
    Marks();
    JoinTwo(scheme, rest, SCHEME_END);
    SplitJoinExactness([scheme, rest], SCHEME_END);
    assert AllFree([scheme, rest], SCHEME_END) ==>
        Free([scheme, rest][0], SCHEME_END) && Free([scheme, rest][1], SCHEME_END);
  }

  // A cut that gives back the pieces found scheme and rest.
  lemma CutRest(s: string, p: Pieces)
    requires s == Assemble(p) && Cut(s) == Some(p)
    ensures Split(s, SCHEME_END) == [p.scheme, Rest(p)]
  {
    var parts := Split(s, SCHEME_END);
    CutExactness(s);
    JoinSplit(s, SCHEME_END);
    assert |parts| == 2 && parts == [parts[0], parts[1]];
    JoinTwo(parts[0], parts[1], SCHEME_END);
    assert p.scheme == parts[0];
    assert parts[0] + SCHEME_END + parts[1] == p.scheme + SCHEME_END + Rest(p);
    assert parts[1] == s[|p.scheme| + 3..] == Rest(p);
  }

  /** Printing components and parsing the text gives them back exactly when their text is well-formed. */
  lemma PrintExactness(u: Parts)
    requires u.authority.port < PORTS
    ensures Parse(Assemble(Printed(u))) == Some(u) <==> WellFormed(Printed(u))
  {
    var p := Printed(u);
    EndpointRoundTrip(u.authority);
    AssembleExactness(p);
    if Parse(Assemble(p)) == Some(u) {
      SameTexts(p, u);
    }
  }

  lemma OneScheme(p: Pieces)
    ensures |Split(Assemble(p), SCHEME_END)| >= 2
  {
    var s := Assemble(p);
    assert s[|p.scheme|..|p.scheme| + 3] == SCHEME_END;
    assert At(s, SCHEME_END, |p.scheme|);
  }

  // Reassembling is injective in the authority's text.
  lemma SameTexts(p: Pieces, u: Parts)
    requires p == Printed(u) && Parse(Assemble(p)) == Some(u)
    ensures Cut(Assemble(p)) == Some(p)
  {
    var s := Assemble(p);
    var q := Cut(s).value;
    assert q == p.(authority := q.authority);
    CutExactness(s);
    OneScheme(p);
    assert q.scheme + SCHEME_END + Rest(q) == p.scheme + SCHEME_END + Rest(p);
    assert Rest(q) == s[|p.scheme| + 3..] == Rest(p);
    JoinHead(WithQueries(q), WithQueries(p), p.fragments, "#");
    JoinHead(Hierarchy(q), Hierarchy(p), p.queries, "?");
    JoinHead(q.authority, p.authority, p.path, "/");
  }

  // -- The constructor --------------------------------------------------------

  // extract_parts: the first part is taken out of the destination and returned.
  method ExtractParts(source: string, delim: string) returns (remainder: string, dst: seq<string>)
    requires delim != ""
    ensures Join([remainder] + dst, delim) == source
    ensures remainder == Front(source, delim)
    ensures dst == Behind(source, delim)
  {
    FrontAndBehind(source, delim);
    dst := SplitText(source, delim);
    remainder := dst[0];
    dst := dst[1..];
  }

  method ParseText(original: string) returns (res: Option<Parts>)
    ensures res == Parse(original)
  {
    var parts := SplitText(original, SCHEME_END);
    if |parts| > 2 {
      return None;
    }
    var scheme := parts[0];
    var fragmentsRemainder, fragments := ExtractParts(parts[|parts| - 1], "#");
    var queriesRemainder, queries := ExtractParts(fragmentsRemainder, "?");
    var auth, path := ExtractParts(queriesRemainder, "/");
    var authority := ParseV4Endpoint(auth);
    if authority.None? {
      return None;
    }
    res := Some(Parts(scheme, authority.value, path, queries, fragments));
  }
}
