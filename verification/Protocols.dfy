/** Target protocol and upstream URL of a routed request
    (crates/model-router/src/lib.rs, `on_request` and its helpers). */
module Protocols {
  import opened Common

  /** `Other` stands for the formats that have no storage name. */
  datatype ApiFormat = AnthropicMessages | OpenaiChat | OpenaiResponses | Other(tag: nat)

  datatype ProtocolEntry = ProtocolEntry(protocol: string, baseUrl: string, rewritePath: Option<string>)

  datatype RouteError =
    | UnknownProtocol(name: string)
    | ForcedNotListed(name: string)
    | NoProtocols
    | Incompatible
    | NoEntry(name: string)
    | EmptyUrl(name: string)

  datatype Route = Route(target: ApiFormat, url: string, rewritePath: Option<string>)

  function ProtocolToStr(p: ApiFormat): string {
    match p
    case AnthropicMessages => "anthropic_messages"
    case OpenaiChat => "openai_chat"
    case OpenaiResponses => "openai_responses"
    case Other(_) => ""
  }

  function ParseProtocol(s: string): Result<ApiFormat, RouteError> {
    if s == "anthropic_messages" then Ok(AnthropicMessages)
    else if s == "openai_chat" then Ok(OpenaiChat)
    else if s == "openai_responses" then Ok(OpenaiResponses)
    else Err(UnknownProtocol(s))
  }

  predicate Lists(protocols: seq<ProtocolEntry>, name: string) {
    exists e :: e in protocols && e.protocol == name
  }

  /** The first entry whose protocol is one of `names`. */
  function FirstOf(protocols: seq<ProtocolEntry>, names: seq<string>): (r: Option<ProtocolEntry>)
    ensures r.None? <==> forall e :: e in protocols ==> e.protocol !in names
    ensures r.Some? ==> exists k: nat :: IsFirst(protocols, names, k) && r.value == protocols[k]
  {
    if protocols == [] then None
    else if protocols[0].protocol in names then
      assert IsFirst(protocols, names, 0);
      Some(protocols[0])
    else
      var r := FirstOf(protocols[1..], names);
      assert r.Some? ==> exists k: nat :: IsFirst(protocols, names, k) && r.value == protocols[k] by {
        if r.Some? {
          var k: nat :| IsFirst(protocols[1..], names, k) && r.value == protocols[1..][k];
          assert forall j :: 1 <= j < k + 1 ==> protocols[j] == protocols[1..][j - 1];
          assert IsFirst(protocols, names, k + 1);
        }
      }
      r
  }

  ghost predicate IsFirst(protocols: seq<ProtocolEntry>, names: seq<string>, k: nat) {
    && k < |protocols|
    && protocols[k].protocol in names
    && forall j :: 0 <= j < k ==> protocols[j].protocol !in names
  }

  function ResolveTargetProtocol(force: Option<string>, detected: Option<ApiFormat>, protocols: seq<ProtocolEntry>)
    : Result<ApiFormat, RouteError>
  {
    match force
    case Some(fp) =>
      (match ParseProtocol(fp)
       case Err(e) => Err(e)
       case Ok(target) => if Lists(protocols, ProtocolToStr(target)) then Ok(target) else Err(ForcedNotListed(fp)))
    case None =>
      if detected.Some? && ProtocolToStr(detected.value) != "" && Lists(protocols, ProtocolToStr(detected.value))
      then Ok(detected.value)
      else if protocols != [] && protocols[0].protocol != "" then ParseProtocol(protocols[0].protocol)
      else Err(NoProtocols)
  }

  /** The mapping's own protocol constraint may switch the target. */
  function ApplyConstraint(target: ApiFormat, protocols: seq<ProtocolEntry>, allowed: seq<string>)
    : Result<ApiFormat, RouteError>
  {
    if allowed == [] || ProtocolToStr(target) in allowed then Ok(target)
    else match FirstOf(protocols, allowed)
      case Some(entry) => ParseProtocol(entry.protocol)
      case None => Err(Incompatible)
  }

  function ResolveUpstreamUrl(target: ApiFormat, protocols: seq<ProtocolEntry>): Result<Route, RouteError> {
    var name := ProtocolToStr(target);
    match FirstOf(protocols, [name])
    case None => Err(NoEntry(name))
    case Some(entry) =>
      if entry.baseUrl == "" then Err(EmptyUrl(name)) else Ok(Route(target, entry.baseUrl, entry.rewritePath))
  }

  function RouteRequest(force: Option<string>, detected: Option<ApiFormat>, protocols: seq<ProtocolEntry>,
                        allowed: seq<string>): Result<Route, RouteError>
  {
    match ResolveTargetProtocol(force, detected, protocols)
    case Err(e) => Err(e)
    case Ok(resolved) =>
      match ApplyConstraint(resolved, protocols, allowed)
      case Err(e) => Err(e)
      case Ok(target) => ResolveUpstreamUrl(target, protocols)
  }

  /** The storage names. */
  lemma StorageNames()
    ensures ParseProtocol("anthropic_messages") == Ok(AnthropicMessages)
    ensures ParseProtocol("openai_chat") == Ok(OpenaiChat)
    ensures ParseProtocol("openai_responses") == Ok(OpenaiResponses)
  {}

  lemma {:induction false} ParseInvertsToStr(p: ApiFormat, s: string)
    ensures ParseProtocol(s) == Ok(p) <==> !p.Other? && s == ProtocolToStr(p)
    ensures p.Other? <==> ProtocolToStr(p) == ""
  {}

  /** Whatever passes resolution and the constraint is listed by the channel. */
  lemma {:induction false} ConstrainedTargetIsListed(force: Option<string>, detected: Option<ApiFormat>, protocols: seq<ProtocolEntry>, allowed: seq<string>)
    ensures var r := ResolveTargetProtocol(force, detected, protocols);
            r.Ok? ==>
              && Lists(protocols, ProtocolToStr(r.value)) && !r.value.Other?
              && var c := ApplyConstraint(r.value, protocols, allowed);
                 c.Ok? ==> Lists(protocols, ProtocolToStr(c.value)) && !c.value.Other?
                           && (allowed == [] || ProtocolToStr(c.value) in allowed)
  {
    hide ParseProtocol, ProtocolToStr;
    var r := ResolveTargetProtocol(force, detected, protocols);
    if r.Ok? {
      ParseInvertsToStr(r.value, if force.Some? then force.value else if protocols != [] then protocols[0].protocol else "");
      assert protocols != [] ==> protocols[0] in protocols;
      var c := ApplyConstraint(r.value, protocols, allowed);
      if c.Ok? && allowed != [] && ProtocolToStr(r.value) !in allowed {
        var entry := FirstOf(protocols, allowed).value;
        ParseInvertsToStr(c.value, entry.protocol);
      }
    }
  }

  /** A routed request goes to a protocol that its channel lists and its
      mapping allows, at the URL of the first entry for it. */
  lemma {:induction false} RoutingIsSound(force: Option<string>, detected: Option<ApiFormat>, protocols: seq<ProtocolEntry>, allowed: seq<string>)
    ensures var r := RouteRequest(force, detected, protocols, allowed);
            r.Ok? ==>
              var name := ProtocolToStr(r.value.target);
              && !r.value.target.Other?
              && (allowed == [] || name in allowed)
              && r.value.url != ""
              && exists k: nat :: IsFirst(protocols, [name], k)
                             && r.value.url == protocols[k].baseUrl && r.value.rewritePath == protocols[k].rewritePath
  {
    hide ParseProtocol, ProtocolToStr, Lists;
    ConstrainedTargetIsListed(force, detected, protocols, allowed);
  }

  /** The "no protocol entry" failure cannot be reached. */
  lemma {:induction false} ResolvedTargetAlwaysHasAnEntry(force: Option<string>, detected: Option<ApiFormat>, protocols: seq<ProtocolEntry>, allowed: seq<string>)
    ensures var r := RouteRequest(force, detected, protocols, allowed); r.Err? ==> !r.error.NoEntry?
  {
    ConstrainedTargetIsListed(force, detected, protocols, allowed);
  }

  /** A client format that the channel supports and the mapping allows is
      kept: the only failure left is an empty URL. */
  lemma {:induction false} SupportedFormatPassesThrough(detected: ApiFormat, protocols: seq<ProtocolEntry>, allowed: seq<string>)
    requires !detected.Other? && Lists(protocols, ProtocolToStr(detected))
    requires allowed == [] || ProtocolToStr(detected) in allowed
    ensures var r := RouteRequest(None, Some(detected), protocols, allowed);
            if r.Ok? then r.value.target == detected else r.error == EmptyUrl(ProtocolToStr(detected))
  {
    ResolvedTargetAlwaysHasAnEntry(None, Some(detected), protocols, allowed);
  }

  /** A forced protocol is not binding: the mapping's constraint overrides it.
      It is the target exactly when the mapping allows it. */
  lemma {:induction false} ForcedProtocolHonouredIff(name: string, detected: Option<ApiFormat>, protocols: seq<ProtocolEntry>, allowed: seq<string>)
    requires RouteRequest(Some(name), detected, protocols, allowed).Ok?
    ensures var r := RouteRequest(Some(name), detected, protocols, allowed);
            ProtocolToStr(r.value.target) == name <==> allowed == [] || name in allowed
  {
    RoutingIsSound(Some(name), detected, protocols, allowed);
    ParseInvertsToStr(ParseProtocol(name).value, name);
  }

  /** The name routing starts from: the forced one, else a listed client
      format, else the channel's first. */
  function Preferred(force: Option<string>, detected: Option<ApiFormat>, protocols: seq<ProtocolEntry>): string {
    if force.Some? then force.value
    else if detected.Some? && !detected.value.Other? && Lists(protocols, ProtocolToStr(detected.value))
    then ProtocolToStr(detected.value)
    else if protocols != [] then protocols[0].protocol else ""
  }

  ghost predicate Known(name: string) {
    exists p: ApiFormat :: !p.Other? && ProtocolToStr(p) == name
  }

  /** The first entry for `name` has a URL. */
  ghost predicate HasUrl(protocols: seq<ProtocolEntry>, name: string) {
    exists k: nat :: IsFirst(protocols, [name], k) && protocols[k].baseUrl != ""
  }

  /** Routing succeeds exactly when the preferred name is known and listed and
      either it is allowed and has a URL, or the first allowed name the channel
      lists is known and has one. */
  lemma {:induction false} RoutingSucceedsIff(force: Option<string>, detected: Option<ApiFormat>, protocols: seq<ProtocolEntry>, allowed: seq<string>)
    ensures var name := Preferred(force, detected, protocols);
            RouteRequest(force, detected, protocols, allowed).Ok? <==>
            && Known(name) && Lists(protocols, name)
            && (if allowed == [] || name in allowed then HasUrl(protocols, name)
                else exists k: nat :: IsFirst(protocols, allowed, k)
                                 && Known(protocols[k].protocol) && HasUrl(protocols, protocols[k].protocol))
  {
    hide FirstOf, IsFirst, HasUrl, ResolveUpstreamUrl;
    var name := Preferred(force, detected, protocols);
    KnownIsParsable(name);
    assert protocols != [] ==> protocols[0] in protocols;
    if Known(name) && Lists(protocols, name) {
      var target := ParseProtocol(name).value;
      assert ResolveTargetProtocol(force, detected, protocols) == Ok(target);
      if allowed == [] || name in allowed {
        UrlIff(target, protocols);
      } else {
        SwitchedIff(target, protocols, allowed);
      }
    }
  }

  /** When the mapping switches the protocol, the first allowed name listed
      must be known and have a URL. */
  lemma SwitchedIff(target: ApiFormat, protocols: seq<ProtocolEntry>, allowed: seq<string>)
    requires allowed != [] && ProtocolToStr(target) !in allowed
    ensures var c := ApplyConstraint(target, protocols, allowed);
            c.Ok? && ResolveUpstreamUrl(c.value, protocols).Ok? <==>
            exists k: nat :: IsFirst(protocols, allowed, k)
                        && Known(protocols[k].protocol) && HasUrl(protocols, protocols[k].protocol)
  {
    hide HasUrl, ResolveUpstreamUrl, ProtocolToStr, Known;
    if FirstOf(protocols, allowed).Some? {
      var k: nat :| IsFirst(protocols, allowed, k) && FirstOf(protocols, allowed).value == protocols[k];
      KnownIsParsable(protocols[k].protocol);
      assert forall j: nat :: IsFirst(protocols, allowed, j) ==> j == k;
      if Known(protocols[k].protocol) {
        UrlIff(ParseProtocol(protocols[k].protocol).value, protocols);
      }
    }
  }

  /** The target of a successful routing: the preferred protocol if the mapping
      allows it, else the first that the channel lists and the mapping allows. */
  lemma RoutedTargetIs(force: Option<string>, detected: Option<ApiFormat>, protocols: seq<ProtocolEntry>, allowed: seq<string>)
    requires RouteRequest(force, detected, protocols, allowed).Ok?
    ensures var name, target := Preferred(force, detected, protocols), ProtocolToStr(RouteRequest(force, detected, protocols, allowed).value.target);
            if allowed == [] || name in allowed then target == name
            else exists k: nat :: IsFirst(protocols, allowed, k) && target == protocols[k].protocol
  {
    hide Lists, IsFirst, ResolveUpstreamUrl;
    var resolved := ResolveTargetProtocol(force, detected, protocols).value;
    ParseInvertsToStr(resolved, Preferred(force, detected, protocols));
    UrlOfTarget(ApplyConstraint(resolved, protocols, allowed).value, protocols);
    if allowed != [] && ProtocolToStr(resolved) !in allowed {
      ParseInvertsToStr(ApplyConstraint(resolved, protocols, allowed).value, FirstOf(protocols, allowed).value.protocol);
    }
  }

  lemma UrlOfTarget(target: ApiFormat, protocols: seq<ProtocolEntry>)
    ensures ResolveUpstreamUrl(target, protocols).Ok? ==> ResolveUpstreamUrl(target, protocols).value.target == target
  {}

  lemma KnownIsParsable(name: string)
    ensures Known(name) <==> ParseProtocol(name).Ok?
    ensures Known(name) ==> name != "" && ProtocolToStr(ParseProtocol(name).value) == name
  {
    if ParseProtocol(name).Ok? {
      assert ProtocolToStr(ParseProtocol(name).value) == name;
    }
  }

  lemma UrlIff(target: ApiFormat, protocols: seq<ProtocolEntry>)
    ensures ResolveUpstreamUrl(target, protocols).Ok? <==> HasUrl(protocols, ProtocolToStr(target))
  {
    hide ProtocolToStr;
    var name := ProtocolToStr(target);
    if FirstOf(protocols, [name]).Some? {
      var k: nat :| IsFirst(protocols, [name], k) && FirstOf(protocols, [name]).value == protocols[k];
      assert forall j: nat :: IsFirst(protocols, [name], j) ==> j == k;
    }
  }
}
