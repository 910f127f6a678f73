/** The router, asked twice per request: by the permission gate and by dispatch (src/admin/router.ts). */
module AdminRouter {
  import opened Seqs

  /** One path segment of a compiled pattern: a text, or a text followed by a parameter. */
  datatype Segment = Literal(text: string) | Param(prefix: string, key: string)

  /** Handlers and permission metadata are opaque, given by number. */
  datatype Route = Route(verb: string, pattern: seq<Segment>, handler: nat, meta: nat)

  datatype Capture = Capture(key: string, raw: string)

  datatype Decoded = Decoded(text: string) | Malformed

  datatype Matched = Matched(meta: nat, params: map<string, string>)

  datatype Response = Handled(handler: nat, params: map<string, string>) | BadRequest | MethodNotAllowed | NotRouted

  /** The path between its slashes. */
  function Segments(path: string): (r: seq<string>)
    ensures |r| > 0
  {
    if path == "" then [""]
    else
      var before, c := Segments(path[..|path| - 1]), path[|path| - 1];
      if c == '/' then before + [""] else before[..|before| - 1] + [before[|before| - 1] + [c]]
  }

  function FirstColon(text: string, from: nat): (i: nat)
    requires from <= |text|
    ensures from <= i <= |text| && (i < |text| ==> text[i] == ':') && forall k :: from <= k < i ==> text[k] != ':'
    decreases |text| - from
  {
    if from == |text| || text[from] == ':' then from else FirstColon(text, from + 1)
  }

  /** The pattern's metacharacters are escaped before its parameters are named, so also in the names. */
  function Escaped(text: string): string {
    if text == "" then ""
    else
      var before, c := Escaped(text[..|text| - 1]), text[|text| - 1];
      before + if c in ".*+?^${}()|[]\\" then ['\\', c] else [c]
  }

  /** A colon with anything after it names a parameter up to the segment's end. */
  function Compiled(text: string): Segment {
    var colon := FirstColon(text, 0);
    if colon + 1 < |text| then Param(text[..colon], Escaped(text[colon + 1..])) else Literal(text)
  }

  function CompiledAll(texts: seq<string>): seq<Segment> {
    if texts == [] then [] else CompiledAll(texts[..|texts| - 1]) + [Compiled(texts[|texts| - 1])]
  }

  function CompilePattern(pattern: string): seq<Segment> {
    CompiledAll(Segments(pattern))
  }

  /** The parameter's text, when the segment starts with the prefix and goes on. */
  function Captured(prefix: string, text: string): Option<string> {
    if |text| > |prefix| && text[..|prefix|] == prefix then Some(text[|prefix|..]) else None
  }

  /** The parameters captured when every segment agrees. */
  function Captures(pattern: seq<Segment>, segments: seq<string>): Option<seq<Capture>> {
    if |pattern| != |segments| then None
    else if pattern == [] then Some([])
    else
      var before := Captures(pattern[..|pattern| - 1], segments[..|segments| - 1]);
      var segment, text := pattern[|pattern| - 1], segments[|segments| - 1];
      if before.None? then None
      else match segment
        case Literal(literal) => if text == literal then before else None
        case Param(prefix, key) =>
          var raw := Captured(prefix, text);
          if raw.Some? then Some(before.value + [Capture(key, raw.value)]) else None
  }

  /** The segments a pattern stands for with these parameters, when they are its own and none is empty. */
  function Filled(pattern: seq<Segment>, captures: seq<Capture>): (r: Option<seq<string>>)
    ensures r.Some? ==> |r.value| == |pattern|
  {
    if pattern == [] then (if captures == [] then Some([]) else None)
    else
      match pattern[|pattern| - 1]
      case Literal(literal) =>
        var before := Filled(pattern[..|pattern| - 1], captures);
        if before.Some? then Some(before.value + [literal]) else None
      case Param(prefix, key) =>
        if captures == [] || captures[|captures| - 1].key != key || captures[|captures| - 1].raw == "" then None
        else
          var before := Filled(pattern[..|pattern| - 1], captures[..|captures| - 1]);
          if before.Some? then Some(before.value + [prefix + captures[|captures| - 1].raw]) else None
  }

  lemma CapturedExactly(prefix: string, text: string, raw: string)
    ensures Captured(prefix, text) == Some(raw) <==> raw != "" && text == prefix + raw
  {
  }

  lemma LiteralLast(pattern: seq<Segment>, segments: seq<string>, captures: seq<Capture>)
    requires pattern != [] && |pattern| == |segments| && pattern[|pattern| - 1].Literal?
    ensures Filled(pattern, captures) == Some(segments)
       <==> && segments[|segments| - 1] == pattern[|pattern| - 1].text
            && Filled(pattern[..|pattern| - 1], captures) == Some(segments[..|segments| - 1])
  {
    InitLast(segments);
  }

  lemma ParamLast(pattern: seq<Segment>, segments: seq<string>, captures: seq<Capture>)
    requires pattern != [] && |pattern| == |segments| && captures != [] && pattern[|pattern| - 1].Param?
    ensures var segment, c := pattern[|pattern| - 1], captures[|captures| - 1];
            (Filled(pattern, captures) == Some(segments)) ==
            (&& c.key == segment.key && c.raw != "" && segments[|segments| - 1] == segment.prefix + c.raw
             && Filled(pattern[..|pattern| - 1], captures[..|captures| - 1]) == Some(segments[..|segments| - 1]))
  {
    InitLast(segments);
  }

  lemma ParamCaptured(pattern: seq<Segment>, segments: seq<string>, captures: seq<Capture>)
    requires pattern != [] && |pattern| == |segments| && captures != [] && pattern[|pattern| - 1].Param?
    ensures var segment, c := pattern[|pattern| - 1], captures[|captures| - 1];
            (Captures(pattern, segments) == Some(captures)) ==
            (&& c.key == segment.key && Captured(segment.prefix, segments[|segments| - 1]) == Some(c.raw)
             && Captures(pattern[..|pattern| - 1], segments[..|segments| - 1]) == Some(captures[..|captures| - 1]))
  {
    InitLast(captures);
    hide Captured;
  }

  /** A path is matched with these parameters exactly when the pattern filled with them is the path. */
  lemma {:induction false} CapturesExactly(pattern: seq<Segment>, segments: seq<string>, captures: seq<Capture>)
    ensures Captures(pattern, segments) == Some(captures) <==> Filled(pattern, captures) == Some(segments)
  {
    if pattern != [] && |pattern| == |segments| {
      var front, before, text := pattern[..|pattern| - 1], segments[..|segments| - 1], segments[|segments| - 1];
      InitLast(segments);
      match pattern[|pattern| - 1]
      case Literal(literal) => {
        CapturesExactly(front, before, captures);
        LiteralLast(pattern, segments, captures);
      }
      case Param(prefix, key) => {
        if captures == [] {
          hide Captured;
        } else {
          CapturesExactly(front, before, captures[..|captures| - 1]);
          CapturedExactly(prefix, text, captures[|captures| - 1].raw);
          ParamLast(pattern, segments, captures);
          ParamCaptured(pattern, segments, captures);
          hide Captured, Filled, Captures;
        }
      }
    }
  }

  function Exec(route: Route, path: string): Option<seq<Capture>> {
    Captures(route.pattern, Segments(path))
  }

  /** The parameters, with an undecodable one as the empty string. */
  function Params(captures: seq<Capture>, decode: string -> Decoded): map<string, string> {
    if captures == [] then map[]
    else
      var before, c := Params(captures[..|captures| - 1], decode), captures[|captures| - 1];
      before[c.key := match decode(c.raw) case Decoded(text) => text case Malformed => ""]
  }

  predicate AllDecode(captures: seq<Capture>, decode: string -> Decoded) {
    forall c | c in captures :: decode(c.raw).Decoded?
  }

  /** The first route registered for the method whose pattern the path matches. */
  function FirstMatch(routes: seq<Route>, verb: string, path: string): (r: Option<Route>)
    ensures r.Some? ==> Exec(r.value, path).Some?
  {
    if routes == [] then None
    else
      var before, route := FirstMatch(routes[..|routes| - 1], verb, path), routes[|routes| - 1];
      if before.None? && route.verb == verb && Exec(route, path).Some? then Some(route) else before
  }

  predicate PathKnown(routes: seq<Route>, path: string) {
    exists r | r in routes :: Exec(r, path).Some?
  }

  function MatchOf(routes: seq<Route>, verb: string, path: string, decode: string -> Decoded): Option<Matched> {
    var route := FirstMatch(routes, verb, path);
    if route.None? then None else Some(Matched(route.value.meta, Params(Exec(route.value, path).value, decode)))
  }

  function ResponseTo(routes: seq<Route>, verb: string, path: string, decode: string -> Decoded): Response {
    var route := FirstMatch(routes, verb, path);
    if route.None? then (if PathKnown(routes, path) then MethodNotAllowed else NotRouted)
    else if !AllDecode(Exec(route.value, path).value, decode) then BadRequest
    else Handled(route.value.handler, Params(Exec(route.value, path).value, decode))
  }

  lemma {:induction false} FirstMatchFits(routes: seq<Route>, verb: string, path: string)
    ensures var r := FirstMatch(routes, verb, path);
            && (r.Some? ==> r.value in routes && r.value.verb == verb && Exec(r.value, path).Some?)
            && (r.None? ==> forall route | route in routes && route.verb == verb :: Exec(route, path).None?)
  {
    if routes != [] {
      FirstMatchFits(routes[..|routes| - 1], verb, path);
      InitLast(routes);
      hide Exec;
    }
  }

  lemma {:induction false} FirstMatchStays(routes: seq<Route>, verb: string, path: string, i: nat)
    requires i < |routes| && routes[i].verb == verb && Exec(routes[i], path).Some?
    requires FirstMatch(routes[..i], verb, path).None?
    ensures FirstMatch(routes, verb, path) == Some(routes[i])
  {
    hide Exec;
    if i < |routes| - 1 {
      TakeTake(routes, |routes| - 1, i);
      FirstMatchStays(routes[..|routes| - 1], verb, path, i);
    }
  }

  lemma FirstMatchPush(routes: seq<Route>, verb: string, path: string, i: nat)
    requires i < |routes| && FirstMatch(routes[..i], verb, path).None?
    ensures FirstMatch(routes[..i + 1], verb, path).None? <==> routes[i].verb != verb || Exec(routes[i], path).None?
  {
    TakeTake(routes, i + 1, i);
    hide Exec;
  }

  lemma PathKnownPush(routes: seq<Route>, path: string, i: nat)
    requires i < |routes|
    ensures PathKnown(routes[..i + 1], path) <==> PathKnown(routes[..i], path) || Exec(routes[i], path).Some?
  {
    assert routes[..i + 1] == routes[..i] + [routes[i]];
    hide Exec;
  }

  lemma AllDecodePush(captures: seq<Capture>, decode: string -> Decoded, k: nat)
    requires k < |captures|
    ensures AllDecode(captures[..k + 1], decode) <==> AllDecode(captures[..k], decode) && decode(captures[k].raw).Decoded?
  {
    assert captures[..k + 1] == captures[..k] + [captures[k]];
  }

  lemma NotAllDecode(captures: seq<Capture>, decode: string -> Decoded, k: nat)
    requires k < |captures| && decode(captures[k].raw).Malformed?
    ensures !AllDecode(captures, decode)
  {
    assert captures[k] in captures;
  }

  class Router {
    const upper: string -> string
    var routes: seq<Route>

    constructor (upper: string -> string)
      ensures routes == [] && this.upper == upper
    {
      this.upper := upper;
      routes := [];
    }

    method Add(verb: string, pattern: string, handler: nat, meta: nat)
      modifies this`routes
      ensures routes == old(routes) + [Route(upper(verb), CompilePattern(pattern), handler, meta)]
    {
      routes := routes + [Route(upper(verb), CompilePattern(pattern), handler, meta)];
    }

    /** The gate's question: method first, then path; undecodable parameters become empty. */
    method Match(verb: string, path: string, decode: string -> Decoded) returns (r: Option<Matched>)
      ensures r == MatchOf(routes, upper(verb), path, decode)
    {
      var upperVerb := upper(verb);
      FirstMatchFits(routes, upperVerb, path);
      hide Exec;
      for i := 0 to |routes|
        invariant FirstMatch(routes[..i], upperVerb, path).None?
      {
        var route := routes[i];
        TakeTake(routes, i + 1, i);
        if route.verb != upperVerb {
          continue;
        }
        var m := Exec(route, path);
        if m.None? {
          continue;
        }
        FirstMatchStays(routes, upperVerb, path, i);
        var params: map<string, string> := map[];
        for k := 0 to |m.value|
          invariant params == Params(m.value[..k], decode)
        {
          TakeTake(m.value, k + 1, k);
          var c := m.value[k];
          var decoded := decode(c.raw);
          params := params[c.key := match decoded case Decoded(text) => text case Malformed => ""];
        }
        assert m.value[..|m.value|] == m.value;
        return Some(Matched(route.meta, params));
      }
      assert routes[..|routes|] == routes;
      r := None;
    }

    /** The request itself: path first, then method; an undecodable parameter is refused. */
    method Dispatch(verb: string, path: string, decode: string -> Decoded) returns (r: Response)
      ensures r == ResponseTo(routes, upper(verb), path, decode)
    {
      var upperVerb := upper(verb);
      FirstMatchFits(routes, upperVerb, path);
      var pathMatched := false;
      assert !PathKnown(routes[..0], path) && AllDecode([], decode);
      hide Exec, FirstMatch, PathKnown, AllDecode;
      for i := 0 to |routes|
        invariant FirstMatch(routes[..i], upperVerb, path).None?
        invariant pathMatched <==> PathKnown(routes[..i], path)
      {
        var route := routes[i];
        TakeTake(routes, i + 1, i);
        PathKnownPush(routes, path, i);
        FirstMatchPush(routes, upperVerb, path, i);
        var m := Exec(route, path);
        if m.None? {
          continue;
        }
        pathMatched := true;
        if route.verb != upperVerb {
          continue;
        }
        FirstMatchStays(routes, upperVerb, path, i);
        var params: map<string, string> := map[];
        for k := 0 to |m.value|
          invariant params == Params(m.value[..k], decode) && AllDecode(m.value[..k], decode)
        {
          TakeTake(m.value, k + 1, k);
          AllDecodePush(m.value, decode, k);
          var c := m.value[k];
          var decoded := decode(c.raw);
          if decoded.Malformed? {
            NotAllDecode(m.value, decode, k);
            return BadRequest;
          }
          params := params[c.key := decoded.text];
        }
        assert m.value[..|m.value|] == m.value;
        return Handled(route.handler, params);
      }
      assert routes[..|routes|] == routes;
      r := if pathMatched then MethodNotAllowed else NotRouted;
    }
  }

  /**
   * The gate and dispatch agree: a handler only runs for a route whose metadata the gate saw, with the very same
   * parameters; the gate sees nothing exactly when no handler can run; and 405 is answered exactly when the path is
   * known under other methods only.
   */
  lemma GateAgreesWithDispatch(routes: seq<Route>, verb: string, path: string, decode: string -> Decoded)
    ensures var seen, response := MatchOf(routes, verb, path, decode), ResponseTo(routes, verb, path, decode);
            && (response.Handled? ==> exists route | route in routes ::
                  seen == Some(Matched(route.meta, response.params)) && response.handler == route.handler
                  && route.verb == verb && Exec(route, path).Some?)
            && (seen.None? <==> response.MethodNotAllowed? || response.NotRouted?)
            && (response.MethodNotAllowed? <==>
                  && (exists route | route in routes :: Exec(route, path).Some?)
                  && (forall route | route in routes && Exec(route, path).Some? :: route.verb != verb))
            && (response.NotRouted? <==> forall route | route in routes :: Exec(route, path).None?)
  {
    FirstMatchFits(routes, verb, path);
    hide Exec;
  }

  // ---------------------------------------------------------------------------
  // Paths and patterns as texts
  // ---------------------------------------------------------------------------

  /** The segments with slashes between them. */
  function Path(segments: seq<string>): string {
    if segments == [] then ""
    else if |segments| == 1 then segments[0]
    else Path(segments[..|segments| - 1]) + "/" + segments[|segments| - 1]
  }

  predicate NoSlash(text: string) {
    forall k :: 0 <= k < |text| ==> text[k] != '/'
  }

  lemma PathLast(segments: seq<string>, c: char)
    requires segments != []
    ensures Path(segments) + [c] == Path(segments[..|segments| - 1] + [segments[|segments| - 1] + [c]])
    ensures Path(segments) + "/" == Path(segments + [""])
  {
    var front, last := segments[..|segments| - 1], segments[|segments| - 1];
    InitOfPush(front, last + [c]);
    InitOfPush(segments, "");
    AppendNothing(Path(segments) + "/");
    if |segments| > 1 {
      AppendAssociative(Path(front) + "/", last, [c]);
    }
  }

  /** Segments are what stands between the slashes of a path. */
  lemma {:induction false} SegmentsExactly(path: string)
    ensures Path(Segments(path)) == path
    ensures forall k | 0 <= k < |Segments(path)| :: NoSlash(Segments(path)[k])
  {
    if path != "" {
      var before, c := Segments(path[..|path| - 1]), path[|path| - 1];
      SegmentsExactly(path[..|path| - 1]);
      InitLast(path);
      PathLast(before, c);
    }
  }

  /** Without a colon that something follows, a pattern's segment is a text to be matched as it is. */
  lemma LiteralExactly(text: string)
    requires forall k :: 0 <= k < |text| - 1 ==> text[k] != ':'
    ensures Compiled(text) == Literal(text)
  {
  }

  /** The first colon with something after it starts a parameter's name. */
  lemma ParamExactly(prefix: string, name: string)
    requires name != "" && forall k :: 0 <= k < |prefix| ==> prefix[k] != ':'
    ensures Compiled(prefix + ":" + name) == Param(prefix, Escaped(name))
  {
    var text := prefix + ":" + name;
    assert text[|prefix|] == ':' && forall k :: 0 <= k < |prefix| ==> text[k] == prefix[k];
    var colon := FirstColon(text, 0);
    assert colon == |prefix| && text[..colon] == prefix && text[colon + 1..] == name;
  }

  /** A name with none of the characters special in a regular expression is kept as it is. */
  lemma {:induction false} PlainNameKept(name: string)
    requires forall k :: 0 <= k < |name| ==>
               name[k] !in {'.', '*', '+', '?', '^', '$', '{', '}', '(', ')', '|', '[', ']', '\\'}
    ensures Escaped(name) == name
  {
    if name != "" {
      PlainNameKept(name[..|name| - 1]);
      InitLast(name);
      NotSpecial(name[|name| - 1]);
    }
  }

  /** Each of these characters is kept with a backslash before it. */
  lemma SpecialIsEscaped(name: string, c: char)
    requires c in {'.', '*', '+', '?', '^', '$', '{', '}', '(', ')', '|', '[', ']', '\\'}
    ensures Escaped(name + [c]) == Escaped(name) + ['\\', c]
  {
    InitOfPush(name, c);
    Special(c);
  }

  lemma Special(c: char)
    requires c in {'.', '*', '+', '?', '^', '$', '{', '}', '(', ')', '|', '[', ']', '\\'}
    ensures c in ".*+?^${}()|[]\\"
  {
    var all := ".*+?^${}()|[]\\";
    assert all[0] == '.' && all[1] == '*' && all[2] == '+' && all[3] == '?' && all[4] == '^' && all[5] == '$' && all[6] == '{';
    assert all[7] == '}' && all[8] == '(' && all[9] == ')' && all[10] == '|' && all[11] == '[' && all[12] == ']' && all[13] == '\\';
  }

  lemma NotSpecial(c: char)
    requires c !in {'.', '*', '+', '?', '^', '$', '{', '}', '(', ')', '|', '[', ']', '\\'}
    ensures c !in ".*+?^${}()|[]\\"
  {
  }

  lemma {:induction false} CompiledEach(texts: seq<string>)
    ensures |CompiledAll(texts)| == |texts|
    ensures forall k | 0 <= k < |texts| :: CompiledAll(texts)[k] == Compiled(texts[k])
  {
    if texts != [] {
      CompiledEach(texts[..|texts| - 1]);
      hide Compiled;
    }
  }

  /** A pattern is compiled segment by segment. */
  lemma CompiledInPlace(pattern: string, k: nat)
    requires k < |Segments(pattern)|
    ensures |CompilePattern(pattern)| == |Segments(pattern)| && CompilePattern(pattern)[k] == Compiled(Segments(pattern)[k])
  {
    CompiledEach(Segments(pattern));
    hide Compiled, Segments;
  }

  /**
   * Of the requests for a known route, those whose parameters all decode are
   * handled, by its own handler and with the decoded texts, the last one given
   * for a name counting; the others are refused as malformed.
   */
  lemma DecodingDecides(routes: seq<Route>, verb: string, path: string, decode: string -> Decoded)
    requires FirstMatch(routes, verb, path).Some?
    ensures var route := FirstMatch(routes, verb, path).value;
            var captures := Exec(route, path).value;
            if exists c :: c in captures && decode(c.raw).Malformed? then ResponseTo(routes, verb, path, decode) == BadRequest
            else ResponseTo(routes, verb, path, decode) == Handled(route.handler, Params(captures, decode))
  {
    hide Exec;
  }

  /** A name has the text of the last capture of it, empty when that does not decode; names not captured have none. */
  lemma {:induction false} ParamsExactly(captures: seq<Capture>, decode: string -> Decoded, key: string) returns (k: nat)
    ensures key !in Params(captures, decode) ==> forall j :: 0 <= j < |captures| ==> captures[j].key != key
    ensures key in Params(captures, decode) ==>
              && k < |captures| && captures[k].key == key && (forall j :: k < j < |captures| ==> captures[j].key != key)
              && Params(captures, decode)[key] == match decode(captures[k].raw) case Decoded(text) => text case Malformed => ""
  {
    if captures == [] {
      k := 0;
    } else {
      var front, last := captures[..|captures| - 1], captures[|captures| - 1];
      k := ParamsExactly(front, decode, key);
      if last.key == key {
        k := |front|;
      }
    }
  }
}
