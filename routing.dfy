// The path helpers of utils.go, actions-handle.go and server.go, and the
// method dispatch every HTTP handler goes through. Everything here is pure
// string and decision logic over the request path and method.

module Routing {
  import opened Json

  // ---------------------------------------------------------------------
  // trimSlash and strings.TrimRight(_, "/")
  // ---------------------------------------------------------------------

  /**
    `trimSlash`: drops one trailing '/' unless the path is exactly one
    character long. The empty path makes the Go slice expression fail, so a
    path must be non-empty (a request URI always is).
   */
  function TrimSlash(path: string): (r: string)
    requires |path| > 0
    ensures r <= path && |path| - 1 <= |r|
    ensures |r| < |path| <==> |path| != 1 && path[|path| - 1] == '/'
  {
    if |path| != 1 && path[|path| - 1] == '/' then path[..|path| - 1] else path
  }

  /** The root path is kept; "/a/" loses its slash but "/a//" only one of its two. */
  lemma TrimSlashExamples()
    ensures TrimSlash("/") == "/"
    ensures TrimSlash("/properties/") == "/properties"
    ensures TrimSlash("/a//") == "/a/"
  {
    assert TrimSlash("/a//") == "/a//"[..3];
  }

  /** `strings.TrimRight(s, "/")`: removes every trailing '/'. */
  function TrimRight(s: string): (r: string)
    ensures r <= s
    ensures r == "" || r[|r| - 1] != '/'
    ensures forall i :: |r| <= i < |s| ==> s[i] == '/'
    decreases |s|
  {
    if |s| > 0 && s[|s| - 1] == '/' then TrimRight(s[..|s| - 1]) else s
  }

  /** Trimming twice is trimming once. */
  lemma {:induction false} TrimRightIdempotent(s: string)
    ensures TrimRight(TrimRight(s)) == TrimRight(s)
  {
    var r := TrimRight(s);
    assert !(|r| > 0 && r[|r| - 1] == '/');
  }

  // ---------------------------------------------------------------------
  // resource: the pattern (properties|actions|events)/([a-zA-Z0-9]+)
  // ---------------------------------------------------------------------

  predicate IsAlnum(c: char)
  {
    'a' <= c <= 'z' || 'A' <= c <= 'Z' || '0' <= c <= '9'
  }

  predicate AllAlnum(s: string)
  {
    forall i :: 0 <= i < |s| ==> IsAlnum(s[i])
  }

  /** The three collection names the pattern's first group accepts. */
  const Collections: seq<string> := ["properties", "actions", "events"]

  /**
    The length of "<collection>/" starting at position `p` of `s`, or 0 when
    no collection name followed by '/' starts there. The three names start
    with different letters, so at most one can match.
   */
  function KeywordLenAt(s: string, p: nat): (k: nat)
    requires p <= |s|
    ensures k > 0 ==> p + k <= |s| && exists c :: c in Collections && s[p..p + k] == c + "/"
    ensures k == 0 || k == 8 || k == 11 || k == 7
  {
    if "properties/" <= s[p..] then
      assert s[p..p + 11] == Collections[0] + "/";
      11
    else if "actions/" <= s[p..] then
      assert s[p..p + 8] == Collections[1] + "/";
      8
    else if "events/" <= s[p..] then
      assert s[p..p + 7] == Collections[2] + "/";
      7
    else 0
  }

  /** The pattern matches starting at position `p`. */
  predicate MatchAt(s: string, p: nat)
  {
    p <= |s| && var k := KeywordLenAt(s, p); k > 0 && p + k < |s| && IsAlnum(s[p + k])
  }

  /** `p` is the leftmost position at which the pattern matches. */
  predicate LeftmostMatch(s: string, p: nat)
  {
    MatchAt(s, p) && forall q :: 0 <= q < p ==> !MatchAt(s, q)
  }

  /**
    `name` is what the second group captures when the match starts at `p`:
    the longest non-empty run of letters and digits after "<collection>/".
   */
  predicate CapturedAt(s: string, p: nat, name: string)
  {
    && LeftmostMatch(s, p)
    && |name| > 0 && AllAlnum(name)
    && var start := p + KeywordLenAt(s, p);
    && start + |name| <= |s| && s[start..start + |name|] == name
    && (start + |name| == |s| || !IsAlnum(s[start + |name|]))
  }

  /** The end of the run of letters and digits starting at `i`. */
  function AlnumRun(s: string, i: nat): (j: nat)
    requires i <= |s|
    ensures i <= j <= |s|
    ensures AllAlnum(s[i..j])
    ensures j == |s| || !IsAlnum(s[j])
    decreases |s| - i
  {
    if i < |s| && IsAlnum(s[i]) then
      var j := AlnumRun(s, i + 1);
      assert s[i..j] == [s[i]] + s[i + 1..j];
      j
    else i
  }

  /** The leftmost position at or after `p` where the pattern matches. */
  function FindMatch(s: string, p: nat): (r: Option<nat>)
    requires p <= |s|
    ensures r.Some? ==> p <= r.value <= |s| && MatchAt(s, r.value)
    ensures r.Some? ==> forall q :: p <= q < r.value ==> !MatchAt(s, q)
    ensures r.None? ==> forall q :: p <= q <= |s| ==> !MatchAt(s, q)
    decreases |s| - p
  {
    if MatchAt(s, p) then Some(p)
    else if p == |s| then None
    else FindMatch(s, p + 1)
  }

  /**
    `resource` of utils.go (`FindStringSubmatch` of the unanchored pattern):
    the second group of the leftmost match, found anywhere in the path, even
    in the middle of a word; an error exactly when the pattern occurs
    nowhere.
   */
  function Resource(path: string): (r: Option<string>)
    ensures r.None? <==> forall q :: 0 <= q <= |path| ==> !MatchAt(path, q)
    ensures r.Some? ==> |r.value| > 0 && AllAlnum(r.value)
    ensures r.Some? ==> exists p :: CapturedAt(path, p, r.value)
  {
    match FindMatch(path, 0)
    case None => None
    case Some(p) =>
      var start := p + KeywordLenAt(path, p);
      var j := AlnumRun(path, start);
      assert j > start by { assert IsAlnum(path[start]); }
      assert CapturedAt(path, p, path[start..j]);
      Some(path[start..j])
  }

  /** The capture is determined by the path: at most one name satisfies `CapturedAt`. */
  lemma {:induction false} CaptureUnique(s: string, p: nat, p': nat, a: string, b: string)
    requires CapturedAt(s, p, a) && CapturedAt(s, p', b)
    ensures p == p' && a == b
  {
    var start := p + KeywordLenAt(s, p);
    assert s[start..start + |a|] == a;
  }

  /** Whatever the pattern captures is what `resource` returns. */
  lemma {:induction false} ResourceOfCapture(s: string, p: nat, name: string)
    requires CapturedAt(s, p, name)
    ensures Resource(s) == Some(name)
  {
    var r := Resource(s).value;
    var p' :| CapturedAt(s, p', r);
    CaptureUnique(s, p', p, r, name);
  }

  /** No collection name starts at a character other than 'p', 'a' or 'e'. */
  lemma NoMatchAt(s: string, q: nat)
    requires q < |s| && s[q] != 'p' && s[q] != 'a' && s[q] != 'e'
    ensures !MatchAt(s, q)
  {
    assert s[q..][0] == s[q];
  }

  /** Where "<collection>/" starts at `p`, the keyword length is that of the collection name plus one. */
  lemma KeywordLenOf(s: string, p: nat, c: string)
    requires c in Collections && p + |c| + 1 <= |s| && s[p..p + |c| + 1] == c + "/"
    ensures KeywordLenAt(s, p) == |c| + 1
  {
    assert s[p..][..|c| + 1] == c + "/";
    if c == "actions" || c == "events" {
      assert s[p] == c[0];
    }
  }

  /**
    Behind a prefix in which no collection name can start, "<collection>/<name>"
    yields the name; "/things/0/properties/brightness", the path the tests
    request inside a thing's mount, is one instance.
   */
  lemma {:induction false} ResourceAfterPlainPrefix(prefix: string, c: string, name: string)
    requires forall j :: 0 <= j < |prefix| ==> prefix[j] != 'p' && prefix[j] != 'a' && prefix[j] != 'e'
    requires c in Collections && |name| > 0 && AllAlnum(name)
    ensures Resource(prefix + c + "/" + name) == Some(name)
  {
    var s := prefix + c + "/" + name;
    var p := |prefix|;
    forall q | 0 <= q < p
      ensures !MatchAt(s, q)
    {
      assert s[q] == prefix[q];
      NoMatchAt(s, q);
    }
    assert s[p..p + |c| + 1] == c + "/";
    KeywordLenOf(s, p, c);
    assert s[p + |c| + 1..] == name;
    assert CapturedAt(s, p, name);
    ResourceOfCapture(s, p, name);
  }

  // ---------------------------------------------------------------------
  // resource of server.go: ^/(properties|actions|events)/([a-zA-Z0-9]+)$
  // ---------------------------------------------------------------------

  /**
    The anchored `resource`: succeeds exactly on "/<collection>/<name>" with
    a non-empty alphanumeric name, and returns the name.
   */
  function ResourceAnchored(path: string): (r: Option<string>)
    ensures r.Some? ==> |r.value| > 0 && AllAlnum(r.value)
    ensures r.Some? ==> exists c :: c in Collections && path == "/" + c + "/" + r.value
  {
    if |path| > 0 && path[0] == '/' && KeywordLenAt(path, 1) > 0 then
      var name := path[1 + KeywordLenAt(path, 1)..];
      if |name| > 0 && AllAlnum(name) then
        assert path == "/" + path[1..1 + KeywordLenAt(path, 1)] + name;
        Some(name)
      else None
    else None
  }

  /** Every "/<collection>/<name>" with a non-empty alphanumeric name is accepted. */
  lemma ResourceAnchoredComplete(c: string, name: string)
    requires c in Collections && |name| > 0 && AllAlnum(name)
    ensures ResourceAnchored("/" + c + "/" + name) == Some(name)
  {
    var path := "/" + c + "/" + name;
    assert path[1..1 + |c| + 1] == c + "/";
    KeywordLenOf(path, 1, c);
    assert path[1 + |c| + 1..] == name;
  }

  /** Where the anchored pattern matches, the unanchored one captures the same name. */
  lemma {:induction false} AnchoredAgreesWithUnanchored(path: string)
    requires ResourceAnchored(path).Some?
    ensures Resource(path) == ResourceAnchored(path)
  {
    var name := ResourceAnchored(path).value;
    var k := KeywordLenAt(path, 1);
    assert path[1 + k..] == name;
    assert 1 + k + |name| == |path|;
    assert path[1 + k..1 + k + |name|] == name;
    NoMatchAt(path, 0);
    assert path[1 + k] == name[0];
    assert CapturedAt(path, 1, name);
    ResourceOfCapture(path, 1, name);
  }

  // ---------------------------------------------------------------------
  // matchActionOrID: ^/actions/(.*)/(.*) first, then resource
  // ---------------------------------------------------------------------

  /** A parsed actions path: the action name and the instance id ("" when absent). */
  datatype ActionPath = ActionPath(name: string, id: string)

  const ActionsPrefix: string := "/actions/"

  /** The text before the first newline, which is as far as `.` matches. */
  function LineOf(s: string): (r: string)
    ensures r <= s
    ensures forall i :: 0 <= i < |r| ==> r[i] != '\n'
    ensures |r| == |s| || s[|r|] == '\n'
  {
    if |s| == 0 || s[0] == '\n' then "" else [s[0]] + LineOf(s[1..])
  }

  predicate NoSlash(s: string)
  {
    forall j :: 0 <= j < |s| ==> s[j] != '/'
  }

  /** The first line of what follows "/actions/". */
  function ActionsLine(path: string): string
    requires ActionsPrefix <= path
  {
    LineOf(path[|ActionsPrefix|..])
  }

  /** The position of the last '/' in `s`, if any. */
  function LastSlash(s: string): (r: Option<nat>)
    ensures r.Some? ==> r.value < |s| && s[r.value] == '/' && NoSlash(s[r.value + 1..])
    ensures r.None? <==> NoSlash(s)
  {
    if |s| == 0 then None
    else if s[|s| - 1] == '/' then Some(|s| - 1)
    else LastSlash(s[..|s| - 1])
  }

  /**
    The two-group pattern `^/actions/(.*)/(.*)`: after "/actions/", the
    first line of the rest must hold a '/'; the greedy first group takes the
    line up to its last '/', the second group the remainder of the line.
   */
  function TwoSegment(path: string): (r: Option<ActionPath>)
    ensures r.Some? ==> ActionsPrefix <= path
    ensures r.Some? ==> r.value.name + "/" + r.value.id == ActionsLine(path) && NoSlash(r.value.id)
    ensures r.None? <==> !(ActionsPrefix <= path) || NoSlash(ActionsLine(path))
  {
    if ActionsPrefix <= path then SplitAtLastSlash(ActionsLine(path)) else None
  }

  /** A line split at its last '/': what precedes it and what follows it. */
  function SplitAtLastSlash(line: string): (r: Option<ActionPath>)
    ensures r.Some? ==> r.value.name + "/" + r.value.id == line && NoSlash(r.value.id)
    ensures r.None? <==> NoSlash(line)
  {
    match LastSlash(line)
    case None => None
    case Some(i) =>
      assert line == line[..i] + "/" + line[i + 1..];
      Some(ActionPath(line[..i], line[i + 1..]))
  }

  /**
    `matchActionOrID` of actions-handle.go: the two-group form wins; failing
    that, the unanchored `resource` gives the name with no id; failing both,
    an error.
   */
  function MatchActionOrId(path: string): (r: Option<ActionPath>)
    ensures TwoSegment(path).Some? ==> r == TwoSegment(path)
    ensures TwoSegment(path).None? ==>
      (r.Some? <==> Resource(path).Some?) && (r.Some? ==> r.value == ActionPath(Resource(path).value, ""))
    ensures !(ActionsPrefix <= path) ==> r.None? || r.value.id == ""
  {
    match TwoSegment(path)
    case Some(ap) => Some(ap)
    case None =>
      match Resource(path)
      case Some(name) => Some(ActionPath(name, ""))
      case None => None
  }

  /** `matchActionOrID` of server.go: the same, with the anchored `resource` as fallback. */
  function MatchActionOrIdAnchored(path: string): (r: Option<ActionPath>)
    ensures TwoSegment(path).Some? ==> r == TwoSegment(path)
    ensures TwoSegment(path).None? ==>
      (r.Some? <==> ResourceAnchored(path).Some?) && (r.Some? ==> r.value == ActionPath(ResourceAnchored(path).value, ""))
    ensures !(ActionsPrefix <= path) ==> r.None? || r.value.id == ""
  {
    match TwoSegment(path)
    case Some(ap) => Some(ap)
    case None =>
      match ResourceAnchored(path)
      case Some(name) => Some(ActionPath(name, ""))
      case None => None
  }

  /** The two matchers agree wherever the anchored one succeeds. */
  lemma {:induction false} MatchersAgree(path: string)
    requires MatchActionOrIdAnchored(path).Some?
    ensures MatchActionOrId(path) == MatchActionOrIdAnchored(path)
  {
    if TwoSegment(path).None? {
      AnchoredAgreesWithUnanchored(path);
    }
  }

  /** A line without a newline is its own first line. */
  lemma LineOfNoNewline(s: string)
    requires forall j :: 0 <= j < |s| ==> s[j] != '\n'
    ensures LineOf(s) == s
  {
  }

  /** A '/' with none after it is the last one. */
  lemma LastSlashAt(s: string, i: nat)
    requires i < |s| && s[i] == '/' && NoSlash(s[i + 1..])
    ensures LastSlash(s) == Some(i)
  {
  }

  /**
    "/actions/<name>/<id>" parses back into the name and id, whenever the id
    has no '/' and neither has a newline; the name may itself hold '/'.
   */
  lemma {:induction false} MatchActionOrIdInstance(name: string, id: string)
    requires NoSlash(id) && forall j :: 0 <= j < |id| ==> id[j] != '\n'
    requires forall j :: 0 <= j < |name| ==> name[j] != '\n'
    ensures MatchActionOrId(ActionsPrefix + name + "/" + id) == Some(ActionPath(name, id))
    ensures MatchActionOrIdAnchored(ActionsPrefix + name + "/" + id) == Some(ActionPath(name, id))
  {
    var path := ActionsPrefix + name + "/" + id;
    var rest := name + "/" + id;
    assert path[|ActionsPrefix|..] == rest;
    LineOfNoNewline(rest);
    assert ActionsLine(path) == rest;
    assert rest[|name| + 1..] == id;
    LastSlashAt(rest, |name|);
    assert rest[..|name|] == name;
    assert TwoSegment(path) == Some(ActionPath(name, id));
  }

  /** "/actions/<name>", with an alphanumeric name, parses as the name with no id. */
  lemma {:induction false} MatchActionOrIdNameOnly(name: string)
    requires |name| > 0 && AllAlnum(name)
    ensures MatchActionOrId(ActionsPrefix + name) == Some(ActionPath(name, ""))
    ensures MatchActionOrIdAnchored(ActionsPrefix + name) == Some(ActionPath(name, ""))
  {
    var path := ActionsPrefix + name;
    assert path[|ActionsPrefix|..] == name;
    assert NoSlash(ActionsLine(path)) by {
      forall j | 0 <= j < |LineOf(name)| ensures LineOf(name)[j] != '/' {
        assert LineOf(name)[j] == name[j];
        assert IsAlnum(name[j]);
      }
    }
    assert TwoSegment(path).None?;
    assert path == "/" + "actions" + "/" + name;
    ResourceAnchoredComplete("actions", name);
    AnchoredAgreesWithUnanchored(path);
  }

  // ---------------------------------------------------------------------
  // Handlers and BaseHandle
  // ---------------------------------------------------------------------

  datatype HttpMethod = Get | Post | Put | Delete | Other(name: string)

  /** The handler types of the server. */
  datatype Handler =
    | ThingsHandler | ThingHandler | PropertiesHandler | PropertyHandler
    | ActionsHandler | ActionHandler | ActionIdHandler | EventsHandler | EventHandler

  /**
    The HTTP methods each handler type implements, its own and those promoted
    through Go struct embedding: `ActionIDHandle` gets `Post` from the
    `ActionHandle` it embeds.
   */
  function Implements(h: Handler): (ms: set<HttpMethod>)
    ensures Get in ms
    ensures Put in ms <==> h == PropertyHandler
    ensures Delete in ms <==> h == ActionIdHandler
    ensures Post in ms <==> h in {ActionsHandler, ActionHandler, ActionIdHandler}
    ensures forall m :: m in ms ==> !m.Other?
  {
    match h
    case PropertyHandler => {Get, Put}
    case ActionsHandler => {Get, Post}
    case ActionHandler => {Get, Post}
    case ActionIdHandler => {Get, Post, Delete}
    case _ => {Get}
  }

  const StatusBadRequest: int := 400
  const StatusMethodNotAllowed: int := 405

  /** What a handler does with a request: delegate to a handler's method, write a status, or write nothing. */
  datatype Outcome = Delegate(handler: Handler, verb: HttpMethod) | Status(code: int) | NoStatus

  /**
    `BaseHandle`: GET, POST, PUT and DELETE go to the handler's method when it
    implements one, and are answered 405 otherwise; any other method falls
    through with no status written.
   */
  function BaseHandle(h: Handler, m: HttpMethod): (o: Outcome)
    ensures m.Other? ==> o == NoStatus
    ensures !m.Other? && m in Implements(h) ==> o == Delegate(h, m)
    ensures !m.Other? && m !in Implements(h) ==> o == Status(StatusMethodNotAllowed)
  {
    if m.Other? then NoStatus
    else if m in Implements(h) then Delegate(h, m)
    else Status(StatusMethodNotAllowed)
  }

  /** A handler's method is reached only through a request with that very method. */
  lemma BaseHandleDelegatesOnlyImplemented(h: Handler, m: HttpMethod)
    ensures BaseHandle(h, m).Delegate? <==> m in Implements(h)
    ensures BaseHandle(h, m).Delegate? ==> BaseHandle(h, m).verb == m && BaseHandle(h, m).handler == h
  {
  }

  /** `ThingsHandle.Handle`: with exactly one thing, the request is that thing's. */
  function ThingsHandle(thingCount: nat, m: HttpMethod): (o: Outcome)
    ensures thingCount == 1 ==> o == BaseHandle(ThingHandler, m)
    ensures thingCount != 1 ==> o == BaseHandle(ThingsHandler, m)
  {
    BaseHandle(if thingCount == 1 then ThingHandler else ThingsHandler, m)
  }

  /** The three ways `ActionsHandle.Handle` routes a parsed path. */
  datatype ActionsRoute = Collection | NameRoute(name: string) | InstanceRoute(name: string, id: string)

  /** An instance route exactly when an id was parsed; a name route when only a name was. */
  function RouteOf(parsed: Option<ActionPath>): (r: ActionsRoute)
    ensures parsed.None? <==> r.Collection?
    ensures r.InstanceRoute? <==> parsed.Some? && parsed.value.id != ""
    ensures r.NameRoute? ==> r.name == parsed.value.name
    ensures r.InstanceRoute? ==> r.name == parsed.value.name && r.id == parsed.value.id
  {
    match parsed
    case None => Collection
    case Some(ap) => if ap.id != "" then InstanceRoute(ap.name, ap.id) else NameRoute(ap.name)
  }

  /**
    `ActionsHandle.Handle` of actions-handle.go on a non-empty request URI:
    an instance path whose action is not found (`found` is whether the
    thing's lookup returned one) is a bad request; otherwise the action
    instance, action name or collection handler takes the request.
   */
  function ActionsHandle(uri: string, m: HttpMethod, found: bool): (o: Outcome)
    requires |uri| > 0
    ensures RouteOf(MatchActionOrId(TrimSlash(uri))).InstanceRoute? ==>
      o == (if found then BaseHandle(ActionIdHandler, m) else Status(StatusBadRequest))
    ensures RouteOf(MatchActionOrId(TrimSlash(uri))).NameRoute? ==> o == BaseHandle(ActionHandler, m)
    ensures RouteOf(MatchActionOrId(TrimSlash(uri))).Collection? ==> o == BaseHandle(ActionsHandler, m)
  {
    match RouteOf(MatchActionOrId(TrimSlash(uri)))
    case Collection => BaseHandle(ActionsHandler, m)
    case NameRoute(_) => BaseHandle(ActionHandler, m)
    case InstanceRoute(_, _) => if found then BaseHandle(ActionIdHandler, m) else Status(StatusBadRequest)
  }

  /** DELETE reaches an action only through an instance path with a non-empty id. */
  lemma DeleteNeedsInstanceId(uri: string, found: bool)
    requires |uri| > 0
    ensures ActionsHandle(uri, Delete, found).Delegate? ==>
      found && MatchActionOrId(TrimSlash(uri)).Some? && MatchActionOrId(TrimSlash(uri)).value.id != ""
  {
  }

  // ---------------------------------------------------------------------
  // strconv.Itoa for the multi-thing prefixes
  // ---------------------------------------------------------------------

  predicate IsDigit(c: char)
  {
    '0' <= c <= '9'
  }

  /** `strconv.Itoa` on a non-negative index: its decimal digits, most significant first. */
  function Decimal(n: nat): (s: string)
    ensures |s| > 0
    ensures forall i :: 0 <= i < |s| ==> IsDigit(s[i])
    ensures n > 0 ==> s[0] != '0'
  {
    if n < 10 then [('0' as int + n) as char]
    else Decimal(n / 10) + [('0' as int + n % 10) as char]
  }

  /** The number a string of decimal digits denotes. */
  function DigitsValue(s: string): nat
    requires forall i :: 0 <= i < |s| ==> IsDigit(s[i])
  {
    if |s| == 0 then 0
    else
      assert IsDigit(s[|s| - 1]);
      10 * DigitsValue(s[..|s| - 1]) + (s[|s| - 1] as int - '0' as int)
  }

  /** Reading the digits back gives the index. */
  lemma {:induction false} DecimalRoundTrip(n: nat)
    ensures DigitsValue(Decimal(n)) == n
  {
    if n >= 10 {
      DecimalRoundTrip(n / 10);
      var s := Decimal(n);
      assert s[..|s| - 1] == Decimal(n / 10);
    }
  }

  /** Different indices get different decimal strings. */
  lemma DecimalInjective(i: nat, j: nat)
    requires i != j
    ensures Decimal(i) != Decimal(j)
  {
    DecimalRoundTrip(i);
    DecimalRoundTrip(j);
  }
}
