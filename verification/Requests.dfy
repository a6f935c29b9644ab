/** Normalising an MCP request body into the context that policies and approvals see. */
module Requests {
  import opened Wrappers
  import opened Texts
  import opened Json

  datatype Identity = Identity(agentId: Text, serverId: Text)

  /** The security-relevant part of an actionable request. */
  datatype SecurityContext = SecurityContext(
    requestId: Json,
    protocolVersion: Option<Text>,
    rpcMethod: Text,
    toolName: Option<Text>,
    toolArguments: Option<Json>,
    agentId: Text,
    serverId: Text)

  datatype ParseError = ParseError | InvalidRequest | UnsupportedVersion(requested: Text) | InvalidParams

  datatype ParseResult = Request(context: SecurityContext) | Notification | Error(error: ParseError)

  const TOOLS_CALL: Text := Ascii("tools/call")
  const SUPPORTED_VERSION: Text := Ascii("2026-07-28")

  /** Reading a property; only plain objects carry the properties looked at here. */
  function Field(v: Json, key: Text): Option<Json> {
    if v.Obj? then Lookup(v.members, key) else None
  }

  function AsText(v: Option<Json>): Option<Text> {
    if v.Some? && v.value.Str? then Some(v.value.s) else None
  }

  /** `metaKey` is the SDK's name for the protocol version inside `_meta`. */
  function ProtocolVersion(params: Option<Json>, metaKey: Text): Option<Text> {
    if params.None? then None
    else
      var meta := Field(params.value, Ascii("_meta"));
      var version := if meta.Some? then AsText(Field(meta.value, metaKey)) else None;
      if version.Some? then version
      else AsText(Field(params.value, Ascii("protocolVersion")))
  }

  /** `parseMcpRequest` on the outcome of parsing the body as JSON. */
  function Parse(body: Option<Json>, identity: Identity, metaKey: Text): ParseResult {
    if body.None? then Error(ParseError.ParseError)
    else if !body.value.Obj? then Error(InvalidRequest)
    else
      var envelope := body.value;
      var id := Field(envelope, Ascii("id"));
      var name := AsText(Field(envelope, Ascii("method")));
      if Field(envelope, Ascii("jsonrpc")) != Some(Str(Ascii("2.0"))) then Error(InvalidRequest)
      else if name.None? then Error(InvalidRequest)
      else if !(id.Some? && (id.value.Str? || id.value.Num?)) then Notification
      else
        var params := Params(envelope);
        var version := ProtocolVersion(params, metaKey);
        if version.Some? && version.value != SUPPORTED_VERSION then
          Error(UnsupportedVersion(version.value))
        else if name.value == TOOLS_CALL && !ValidToolCall(params) then Error(InvalidParams)
        else
          Request(SecurityContext(
            id.value, version, name.value,
            if name.value == TOOLS_CALL then ToolName(params) else None,
            if name.value == TOOLS_CALL then ToolArguments(params) else None,
            identity.agentId, identity.serverId))
  }

  function Params(envelope: Json): Option<Json> {
    var raw := Field(envelope, Ascii("params"));
    if raw.Some? && (raw.value.Obj? || raw.value.Arr?) then raw else None
  }

  predicate ValidToolCall(params: Option<Json>) {
    && ToolName(params).Some?
    && var args := Field(params.value, Ascii("arguments"));
       args.Some? ==> args.value.Null? || args.value.Obj?
  }

  function ToolName(params: Option<Json>): Option<Text> {
    if params.None? then None else AsText(Field(params.value, Ascii("name")))
  }

  function ToolArguments(params: Option<Json>): Option<Json> {
    if params.None? then None
    else
      var args := Field(params.value, Ascii("arguments"));
      if args.Some? && args.value.Obj? then args else None
  }

  /** What the parser guarantees about every context it produces: a tool name exactly on
      tool calls, arguments only there, and those a JSON object. */
  ghost predicate Shaped(c: SecurityContext) {
    && (c.toolName.Some? <==> c.rpcMethod == TOOLS_CALL)
    && (c.toolArguments.Some? ==>
          c.toolName.Some? && c.toolArguments.value.Obj? && WellFormed(c.toolArguments.value))
  }

  lemma FieldOfWellFormed(v: Json, key: Text)
    requires WellFormed(v) && Field(v, key).Some?
    ensures WellFormed(Field(v, key).value)
  {
    var x := Get(v.members, key);
    var i :| 0 <= i < |v.members| && v.members[i] == Member(key, x);
    assert WellFormed(v.members[i].value);
  }

  /** The arguments that the context carries are those that were sent: none on other calls than
      tool calls and where they are absent or null, and otherwise an object as it was. */
  ghost predicate CarriesItsArguments(body: Json, c: SecurityContext) {
    if c.rpcMethod != TOOLS_CALL then c.toolArguments.None?
    else
      && Params(body).Some?
      && var args := Field(Params(body).value, Ascii("arguments"));
         c.toolArguments == if args.None? || args.value.Null? then None else args
  }

  /** Every context the parser produces is shaped, keeps the trusted identity, declares no other
      protocol version than the supported one, and carries the arguments that were sent. */
  lemma ParsedContextsAreShaped(body: Option<Json>, identity: Identity, metaKey: Text)
    requires body.Some? ==> WellFormed(body.value)
    ensures var r := Parse(body, identity, metaKey);
            r.Request? ==>
              && body.Some? && Shaped(r.context) && CarriesItsArguments(body.value, r.context)
              && r.context.agentId == identity.agentId && r.context.serverId == identity.serverId
              && r.context.protocolVersion in {None, Some(SUPPORTED_VERSION)}
  {
    if Parse(body, identity, metaKey).Request? {
      ToolArgumentsAreWellFormed(body.value);
    }
  }

  lemma ToolArgumentsAreWellFormed(envelope: Json)
    requires WellFormed(envelope)
    ensures var args := ToolArguments(Params(envelope));
            args.Some? ==> args.value.Obj? && WellFormed(args.value)
  {
    var params := Params(envelope);
    if ToolArguments(params).Some? {
      FieldOfWellFormed(envelope, Ascii("params"));
      FieldOfWellFormed(params.value, Ascii("arguments"));
    }
  }

  // ---------------------------------------------------------------- what each answer means

  /** The value is an object with this member, wherever it stands. */
  ghost predicate Carries(v: Json, key: Text, x: Json) {
    v.Obj? && Member(key, x) in v.members
  }

  lemma FieldIsCarried(v: Json, key: Text)
    requires WellFormed(v)
    ensures forall x :: Field(v, key) == Some(x) <==> Carries(v, key, x)
    ensures Field(v, key).Some? ==> WellFormed(Field(v, key).value)
  {
    if v.Obj? {
      forall x | Member(key, x) in v.members ensures Field(v, key) == Some(x) {
        var i :| 0 <= i < |v.members| && v.members[i] == Member(key, x);
        GetIsTheMember(v.members, i);
      }
    }
    if Field(v, key).Some? { FieldOfWellFormed(v, key); }
  }

  /** A JSON-RPC 2.0 message for this method. */
  ghost predicate IsMessage(body: Json, rpcMethod: Text) {
    Carries(body, Ascii("jsonrpc"), Str(Ascii("2.0"))) && Carries(body, Ascii("method"), Str(rpcMethod))
  }

  /** The message asks for an answer: its id is a string or a number. */
  ghost predicate AsksWithId(body: Json, id: Json) {
    Carries(body, Ascii("id"), id) && (id.Str? || id.Num?)
  }

  ghost predicate DeclaresInMeta(params: Json, metaKey: Text, version: Text) {
    exists meta :: Carries(params, Ascii("_meta"), meta) && Carries(meta, metaKey, Str(version))
  }

  /** The version that the parameters declare: in `_meta` or, if it is not there, beside it. */
  ghost predicate DeclaredBy(params: Json, metaKey: Text, version: Text) {
    || DeclaresInMeta(params, metaKey, version)
    || (&& Carries(params, Ascii("protocolVersion"), Str(version))
        && forall other :: !DeclaresInMeta(params, metaKey, other))
  }

  ghost predicate Declares(body: Json, metaKey: Text, version: Text) {
    exists params :: Carries(body, Ascii("params"), params) && DeclaredBy(params, metaKey, version)
  }

  /** The parameters of a tool call: a name, and arguments that are an object, null or absent. */
  ghost predicate NamesTool(params: Json, name: Text, args: Option<Json>) {
    Carries(params, Ascii("name"), Str(name)) &&
    match args
    case Some(x) => x.Obj? && Carries(params, Ascii("arguments"), x)
    case None => forall x | Carries(params, Ascii("arguments"), x) :: x.Null?
  }

  ghost predicate CallsTool(body: Json, name: Text, args: Option<Json>) {
    exists params :: Carries(body, Ascii("params"), params) && NamesTool(params, name, args)
  }

  predicate IsToolMethod(rpcMethod: Text) {
    rpcMethod == Ascii("tools/call")
  }

  predicate IsSupported(version: Text) {
    version == Ascii("2026-07-28")
  }

  /** The context is what the body says, with the trusted identity. */
  ghost predicate Says(body: Json, identity: Identity, metaKey: Text, c: SecurityContext) {
    && IsMessage(body, c.rpcMethod) && AsksWithId(body, c.requestId)
    && c.agentId == identity.agentId && c.serverId == identity.serverId
    && SaysVersion(body, metaKey, c.protocolVersion)
    && if IsToolMethod(c.rpcMethod) then
         c.toolName.Some? && CallsTool(body, c.toolName.value, c.toolArguments)
       else c.toolName.None? && c.toolArguments.None?
  }

  ghost predicate SaysVersion(body: Json, metaKey: Text, version: Option<Text>) {
    match version
    case Some(v) => IsSupported(v) && Declares(body, metaKey, v)
    case None => forall v :: !Declares(body, metaKey, v)
  }

  lemma SaysVersionExactly(body: Json, metaKey: Text, version: Option<Text>)
    requires WellFormed(body)
    ensures SaysVersion(body, metaKey, version)
       <==> version == ProtocolVersion(Params(body), metaKey) && (version.Some? ==> IsSupported(version.value))
  {
    VersionExactly(body, metaKey);
    var declared := ProtocolVersion(Params(body), metaKey);
    if declared.Some? { assert Declares(body, metaKey, declared.value); }
  }

  // The parser's answer, told by the members of the body, for all bodies.

  lemma RequestsExactly(body: Json, identity: Identity, metaKey: Text, c: SecurityContext)
    requires WellFormed(body)
    ensures Parse(Some(body), identity, metaKey) == Request(c) <==> Says(body, identity, metaKey, c)
  {
    MessageExactly(body);
    SaysVersionExactly(body, metaKey, c.protocolVersion);
    ToolExactly(body);
    if c.toolName.Some? {
      assert ValidToolCall(Params(body)) || !CallsTool(body, c.toolName.value, c.toolArguments);
    }
  }

  lemma NotificationsExactly(body: Option<Json>, identity: Identity, metaKey: Text)
    requires body.Some? ==> WellFormed(body.value)
    ensures Parse(body, identity, metaKey) == Notification
       <==> body.Some? && (exists m :: IsMessage(body.value, m)) && forall id :: !AsksWithId(body.value, id)
  {
    if body.Some? {
      AskingExactly(body.value);
    }
  }

  lemma EnvelopeErrorsExactly(body: Option<Json>, identity: Identity, metaKey: Text)
    requires body.Some? ==> WellFormed(body.value)
    ensures var r := Parse(body, identity, metaKey);
            && (r == Error(ParseError.ParseError) <==> body.None?)
            && (r == Error(InvalidRequest) <==> body.Some? && forall m :: !IsMessage(body.value, m))
  {
    if body.Some? {
      MessageExactly(body.value);
      var name := AsText(Field(body.value, Ascii("method")));
      if name.Some? { assert IsMessage(body.value, name.value) || !IsMessage(body.value, name.value); }
    }
  }

  lemma VersionErrorsExactly(body: Json, identity: Identity, metaKey: Text, v: Text)
    requires WellFormed(body)
    ensures Parse(Some(body), identity, metaKey) == Error(UnsupportedVersion(v))
       <==> && (exists m :: IsMessage(body, m)) && (exists id :: AsksWithId(body, id))
            && Declares(body, metaKey, v) && !IsSupported(v)
  {
    MessageExactly(body);
    VersionExactly(body, metaKey);
    AskingExactly(body);
  }

  lemma ToolErrorsExactly(body: Json, identity: Identity, metaKey: Text)
    requires WellFormed(body)
    ensures Parse(Some(body), identity, metaKey) == Error(InvalidParams)
       <==> && (exists m :: IsMessage(body, m) && IsToolMethod(m)) && (exists id :: AsksWithId(body, id))
            && (forall v | Declares(body, metaKey, v) :: IsSupported(v))
            && forall name, args :: !CallsTool(body, name, args)
  {
    MessageExactly(body);
    VersionExactly(body, metaKey);
    ToolExactly(body);
    AskingExactly(body);
  }

  lemma AskingExactly(body: Json)
    requires WellFormed(body)
    ensures (exists id :: AsksWithId(body, id)) <==>
              var id := Field(body, Ascii("id")); id.Some? && (id.value.Str? || id.value.Num?)
    ensures (exists m :: IsMessage(body, m)) <==>
              && Field(body, Ascii("jsonrpc")) == Some(Str(Ascii("2.0")))
              && AsText(Field(body, Ascii("method"))).Some?
  {
    MessageExactly(body);
    var name := AsText(Field(body, Ascii("method")));
    if name.Some? { assert IsMessage(body, name.value) || !IsMessage(body, name.value); }
    var id := Field(body, Ascii("id"));
    if id.Some? { assert AsksWithId(body, id.value) || !AsksWithId(body, id.value); }
  }

  lemma MessageExactly(body: Json)
    requires WellFormed(body)
    ensures forall m :: IsMessage(body, m) <==>
              Field(body, Ascii("jsonrpc")) == Some(Str(Ascii("2.0"))) && Field(body, Ascii("method")) == Some(Str(m))
    ensures forall id :: AsksWithId(body, id) <==> Field(body, Ascii("id")) == Some(id) && (id.Str? || id.Num?)
  {
    FieldIsCarried(body, Ascii("jsonrpc"));
    FieldIsCarried(body, Ascii("method"));
    FieldIsCarried(body, Ascii("id"));
  }

  lemma VersionExactly(body: Json, metaKey: Text)
    requires WellFormed(body)
    ensures forall v :: Declares(body, metaKey, v) <==> ProtocolVersion(Params(body), metaKey) == Some(v)
  {
    FieldIsCarried(body, Ascii("params"));
    var raw := Field(body, Ascii("params"));
    if raw.Some? {
      assert Carries(body, Ascii("params"), raw.value);
      DeclaredExactly(raw.value, metaKey);
    }
  }

  lemma DeclaredExactly(params: Json, metaKey: Text)
    requires WellFormed(params)
    ensures forall v :: DeclaredBy(params, metaKey, v) <==> ProtocolVersion(Some(params), metaKey) == Some(v)
  {
    FieldIsCarried(params, Ascii("protocolVersion"));
    InMetaExactly(params, metaKey);
    var meta := Field(params, Ascii("_meta"));
    if meta.Some? && AsText(Field(meta.value, metaKey)).Some? {
      assert DeclaresInMeta(params, metaKey, AsText(Field(meta.value, metaKey)).value);
    }
  }

  lemma InMetaExactly(params: Json, metaKey: Text)
    requires WellFormed(params)
    ensures var meta := Field(params, Ascii("_meta"));
            forall v :: DeclaresInMeta(params, metaKey, v) <==>
                          meta.Some? && Field(meta.value, metaKey) == Some(Str(v))
  {
    FieldIsCarried(params, Ascii("_meta"));
    var meta := Field(params, Ascii("_meta"));
    if meta.Some? {
      assert Carries(params, Ascii("_meta"), meta.value);
      FieldIsCarried(meta.value, metaKey);
    }
  }

  lemma ToolExactly(body: Json)
    requires WellFormed(body)
    ensures var params := Params(body);
            && (ValidToolCall(params) <==> exists name, args :: CallsTool(body, name, args))
            && (ValidToolCall(params) ==>
                  forall name, args :: CallsTool(body, name, args) <==>
                    ToolName(params) == Some(name) && ToolArguments(params) == args)
  {
    FieldIsCarried(body, Ascii("params"));
    var raw := Field(body, Ascii("params"));
    if raw.Some? {
      assert Carries(body, Ascii("params"), raw.value);
      NamedToolExactly(raw.value);
      if ValidToolCall(raw) {
        assert CallsTool(body, ToolName(raw).value, ToolArguments(raw));
      }
    }
  }

  lemma NamedToolExactly(params: Json)
    requires WellFormed(params)
    ensures forall name, args :: NamesTool(params, name, args) <==>
              ValidToolCall(Some(params)) && ToolName(Some(params)) == Some(name) && ToolArguments(Some(params)) == args
  {
    FieldIsCarried(params, Ascii("name"));
    FieldIsCarried(params, Ascii("arguments"));
  }
}

/** What ties an approval to one exact request. */
module Bindings {
  import opened Wrappers
  import opened Texts
  import opened Json
  import opened Requests
  import Canonical
  import CanonicalEquality

  /** SHA-256 modelled as collision-free: the digest remembers what was hashed. */
  datatype Digest = Sha256(text: Text)

  const ALGORITHM: Text := Ascii("sha256")

  datatype Binding = Binding(
    agentId: Text,
    serverId: Text,
    rpcMethod: Text,
    toolName: Option<Text>,
    argsHash: Digest,
    argsHashAlgo: Text)

  /** `hashArguments`: no arguments hash like `null`. */
  function HashArguments(args: Option<Json>): Digest {
    Sha256(Canonical.Canonicalize(if args.Some? then args.value else Null))
  }

  function BindingOf(c: SecurityContext): Binding {
    Binding(c.agentId, c.serverId, c.rpcMethod, c.toolName, HashArguments(c.toolArguments), ALGORITHM)
  }

  predicate SameBinding(a: Binding, b: Binding) {
    && a.agentId == b.agentId && a.serverId == b.serverId && a.rpcMethod == b.rpcMethod
    && a.toolName == b.toolName && a.argsHash == b.argsHash && a.argsHashAlgo == b.argsHashAlgo
  }

  /** The two requests carry structurally equal arguments, or both carry none. */
  predicate SameArguments(a: Option<Json>, b: Option<Json>) {
    match (a, b)
    case (Some(x), Some(y)) => DeepEqual(x, y)
    case (None, None) => true
    case _ => false
  }

  /** Two shaped contexts have the same binding exactly when they are the same call by the
      same agent to the same server. */
  lemma BindingIdentifiesTheCall(a: SecurityContext, b: SecurityContext)
    requires Shaped(a) && Shaped(b)
    ensures SameBinding(BindingOf(a), BindingOf(b))
       <==> && a.agentId == b.agentId && a.serverId == b.serverId && a.rpcMethod == b.rpcMethod
            && a.toolName == b.toolName && SameArguments(a.toolArguments, b.toolArguments)
  {
    var x := if a.toolArguments.Some? then a.toolArguments.value else Null;
    var y := if b.toolArguments.Some? then b.toolArguments.value else Null;
    CanonicalEquality.CanonicalTextIffDeepEqual(x, y);
  }

  // ---------------------------------------------------------------- how repositories compare

  function Coalesced(toolName: Option<Text>): Text {
    if toolName.Some? then toolName.value else []
  }

  /** PostgreSQL compares tool names after `COALESCE(tool_name, '')`. */
  predicate SameRowKey(a: Binding, b: Binding) {
    SameBinding(a.(toolName := Some(Coalesced(a.toolName))), b.(toolName := Some(Coalesced(b.toolName))))
  }

  /** The columns of the partial unique index; the algorithm is not among them. */
  predicate SameIndexKey(a: Binding, b: Binding) {
    && a.agentId == b.agentId && a.serverId == b.serverId && a.rpcMethod == b.rpcMethod
    && Coalesced(a.toolName) == Coalesced(b.toolName) && a.argsHash == b.argsHash
  }

  /** The in-memory repository joins the fields with NUL. The last two fields are a hex
      digest and an algorithm name, neither of which contains NUL, so they stay apart. */
  datatype JoinedKey = JoinedKey(front: Text, argsHash: Digest, argsHashAlgo: Text)

  function JoinKey(b: Binding): JoinedKey {
    JoinedKey(
      b.agentId + [0] + (b.serverId + [0] + (b.rpcMethod + [0] + Coalesced(b.toolName))),
      b.argsHash, b.argsHashAlgo)
  }

  /** The field carries no NUL, as is always so of text stored by PostgreSQL. */
  ghost predicate NulFree(t: Text) {
    0 !in t
  }

  function FirstNul(t: Text): nat {
    if t == [] || t[0] == 0 then 0 else 1 + FirstNul(t[1..])
  }

  lemma {:induction false} FirstNulEndsTheField(a: Text, x: Text)
    requires NulFree(a)
    ensures FirstNul(a + [0] + x) == |a|
  {
    if a != [] {
      assert (a + [0] + x)[1..] == a[1..] + [0] + x;
      FirstNulEndsTheField(a[1..], x);
    }
  }

  lemma FirstFieldIsReadable(a: Text, b: Text, x: Text, y: Text)
    requires NulFree(a) && NulFree(b) && a + [0] + x == b + [0] + y
    ensures a == b && x == y
  {
    FirstNulEndsTheField(a, x);
    FirstNulEndsTheField(b, y);
    var t := a + [0] + x;
    assert t[..|a|] == a && t[..|b|] == b;
    assert t[|a| + 1..] == x && t[|b| + 1..] == y;
  }

  function Nuls(t: Text): nat {
    if t == [] then 0 else (if t[0] == 0 then 1 else 0) + Nuls(t[1..])
  }

  lemma {:induction false} NulsConcat(a: Text, b: Text)
    ensures Nuls(a + b) == Nuls(a) + Nuls(b)
  {
    if a == [] {
      assert a + b == b;
    } else {
      assert (a + b)[1..] == a[1..] + b;
      NulsConcat(a[1..], b);
    }
  }

  lemma {:induction false} NoNuls(t: Text)
    ensures NulFree(t) <==> Nuls(t) == 0
  {
    if t != [] {
      NoNuls(t[1..]);
      assert t == [t[0]] + t[1..];
    }
  }

  function Joined(a: Text, b: Text): Text {
    a + [0] + b
  }

  lemma NulsJoined(a: Text, b: Text)
    ensures Nuls(Joined(a, b)) == Nuls(a) + 1 + Nuls(b)
  {
    NulsConcat(a + [0], b);
    NulsConcat(a, [0]);
    assert Nuls([0]) == 1;
  }

  lemma NulsOfKey(b: Binding)
    ensures Nuls(JoinKey(b).front)
         == 3 + Nuls(b.agentId) + Nuls(b.serverId) + Nuls(b.rpcMethod) + Nuls(Coalesced(b.toolName))
  {
    var tool := Coalesced(b.toolName);
    NulsJoined(b.rpcMethod, tool);
    NulsJoined(b.serverId, Joined(b.rpcMethod, tool));
    NulsJoined(b.agentId, Joined(b.serverId, Joined(b.rpcMethod, tool)));
  }

  /** None of the joined texts contains the separator. */
  ghost predicate PlainKey(b: Binding) {
    NulFree(b.agentId) && NulFree(b.serverId) && NulFree(b.rpcMethod) && NulFree(Coalesced(b.toolName))
  }

  lemma PlainKeysAreReadable(a: Binding, b: Binding)
    requires PlainKey(a) && PlainKey(b)
    ensures JoinKey(a) == JoinKey(b) <==> SameRowKey(a, b)
  {
    if JoinKey(a) == JoinKey(b) {
      var aTail := a.rpcMethod + [0] + Coalesced(a.toolName);
      var bTail := b.rpcMethod + [0] + Coalesced(b.toolName);
      FirstFieldIsReadable(a.agentId, b.agentId, a.serverId + [0] + aTail, b.serverId + [0] + bTail);
      FirstFieldIsReadable(a.serverId, b.serverId, aTail, bTail);
      FirstFieldIsReadable(a.rpcMethod, b.rpcMethod, Coalesced(a.toolName), Coalesced(b.toolName));
    }
  }

  /** A plain binding shares its joined key with exactly the bindings of its row key, whatever
      the other binding contains: the keys carry the same number of separators. */
  lemma PlainKeyIsTheRowKey(a: Binding, b: Binding)
    requires PlainKey(a)
    ensures JoinKey(a) == JoinKey(b) <==> SameRowKey(a, b)
  {
    NoNuls(a.agentId);
    NoNuls(a.serverId);
    NoNuls(a.rpcMethod);
    NoNuls(Coalesced(a.toolName));
    if JoinKey(a) == JoinKey(b) {
      NulsOfKey(a);
      NulsOfKey(b);
      NoNuls(b.agentId);
      NoNuls(b.serverId);
      NoNuls(b.rpcMethod);
      NoNuls(Coalesced(b.toolName));
      PlainKeysAreReadable(a, b);
    }
  }

  lemma {:induction false} SplitAtNul(t: Text) returns (front: Text, rest: Text)
    requires !NulFree(t)
    ensures t == Joined(front, rest) && |front| < |t|
  {
    if t[0] == 0 {
      front, rest := [], t[1..];
    } else {
      assert t == [t[0]] + t[1..];
      front, rest := SplitAtNul(t[1..]);
      front := [t[0]] + front;
    }
  }

  lemma JoinedTwice(a: Text, b: Text, c: Text)
    ensures Joined(Joined(a, b), c) == Joined(a, Joined(b, c))
  {}

  /** Moving a separator from inside a field to the seam next to it gives another binding with
      the same joined key. */
  lemma SeparatorsInsideConfuse(a: Binding) returns (b: Binding)
    requires !PlainKey(a)
    ensures JoinKey(a) == JoinKey(b) && !SameRowKey(a, b)
  {
    var tool := Coalesced(a.toolName);
    if !NulFree(a.agentId) {
      var x, y := SplitAtNul(a.agentId);
      JoinedTwice(x, y, Joined(a.serverId, Joined(a.rpcMethod, tool)));
      b := a.(agentId := x, serverId := y, rpcMethod := a.serverId, toolName := Some(Joined(a.rpcMethod, tool)));
    } else if !NulFree(a.serverId) {
      var x, y := SplitAtNul(a.serverId);
      JoinedTwice(x, y, Joined(a.rpcMethod, tool));
      b := a.(serverId := x, rpcMethod := y, toolName := Some(Joined(a.rpcMethod, tool)));
    } else if !NulFree(a.rpcMethod) {
      var x, y := SplitAtNul(a.rpcMethod);
      JoinedTwice(x, y, tool);
      b := a.(rpcMethod := x, toolName := Some(Joined(y, tool)));
    } else {
      var x, y := SplitAtNul(tool);
      JoinedTwice(a.rpcMethod, x, y);
      b := a.(rpcMethod := Joined(a.rpcMethod, x), toolName := Some(y));
    }
  }

  /** The joined key of a binding agrees with the row comparison, against every other binding,
      exactly when none of its four texts contains NUL. */
  lemma JoinedKeyIsTheRowKey(a: Binding)
    ensures (forall b :: JoinKey(a) == JoinKey(b) <==> SameRowKey(a, b)) <==> PlainKey(a)
  {
    if PlainKey(a) {
      forall b ensures JoinKey(a) == JoinKey(b) <==> SameRowKey(a, b) {
        PlainKeyIsTheRowKey(a, b);
      }
    } else {
      var b := SeparatorsInsideConfuse(a);
    }
  }

  /** A NUL at the end of the method or at the start of what follows it reads the same in a
      joined key, so two bindings of one agent that differ there share a key. */
  lemma JoinedKeyConfusesNul(x: Binding, tool: Text)
    ensures var a := x.(rpcMethod := x.rpcMethod + [0] + tool, toolName := None);
            var b := x.(toolName := Some(tool + [0]));
            JoinKey(a) == JoinKey(b) && !SameRowKey(a, b)
  {
    var m := x.rpcMethod;
    assert (m + [0] + tool) + [0] + [] == m + [0] + (tool + [0]);
    assert |m + [0] + tool| != |m|;
  }

  /** Such bindings come from the parser: a tool call, and a call of a method whose name
      continues with NUL after `tools/call`. */
  lemma ConfusedCallsAreShaped(c: SecurityContext, tool: Text)
    ensures Shaped(c.(rpcMethod := TOOLS_CALL + [0] + tool, toolName := None, toolArguments := None))
    ensures Shaped(c.(rpcMethod := TOOLS_CALL, toolName := Some(tool + [0]), toolArguments := None))
  {
    assert |TOOLS_CALL + [0] + tool| != |TOOLS_CALL|;
  }

  /** On contexts from the parser, the coalescing comparison accepts exactly what
      `sameBinding` accepts: a missing and an empty tool name never meet. */
  lemma CoalescingIsExactOnParsedContexts(a: SecurityContext, b: SecurityContext)
    requires Shaped(a) && Shaped(b)
    ensures SameRowKey(BindingOf(a), BindingOf(b)) <==> SameBinding(BindingOf(a), BindingOf(b))
    ensures SameIndexKey(BindingOf(a), BindingOf(b)) <==> SameBinding(BindingOf(a), BindingOf(b))
  {}
}
