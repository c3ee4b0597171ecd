/**
 * The two request pipelines of a peer (pkg/wmp/peer.go): `dispatch` and `handleRequest`, which write
 * responses to the transport, and `HandleRequestSync`, which returns them.
 */
module Pipelines {
  import opened Options
  import opened Text
  import opened Calls

  const INVALID_PARAMS := -32602
  const INTERNAL_ERROR := -32603
  const NOT_AUTHORIZED := -31002

  datatype RpcResponse = RpcResponse(id: RawId, result: Option<string>, error: Option<RpcError>)

  /** A decoded message that may be a request, a notification or a response. */
  datatype Message = Message(id: RawId, name: string, params: string, result: Option<string>, error: Option<RpcError>)

  predicate IsResponse(m: Message) {
    m.result.Some? || m.error.Some?
  }

  predicate IsNotification(m: Message) {
    IsNotificationId(m.id)
  }

  datatype Failure = Rpc(error: RpcError) | Plain(text: string)

  /** What the middleware chain and the method dispatch return; a value that cannot be marshalled has no JSON. */
  datatype Dispatched = Failed(failure: Failure) | NoResult | Value(json: Option<string>)

  datatype Context = Context(requestId: Option<string>, sender: Option<string>, session: Option<string>)

  datatype Metadata = Metadata(sender: string, sessionId: string)

  /** The peer's optional hooks, its session store, and everything behind the middleware chain. */
  datatype Hooks = Hooks(
    authorizer: Option<(string, string) -> bool>,
    validator: Option<(string, string) -> Option<string>>,
    metadata: string -> Option<Metadata>,
    sessions: Option<string -> bool>,
    dispatch: (Context, string, string) -> Dispatched)

  datatype Invocation = Invocation(context: Context, name: string, params: string)

  /** Everything a message makes the peer do: route a response, invoke the chain, answer. */
  datatype Effect = Effect(routed: seq<RpcResponse>, invoked: seq<Invocation>, written: seq<RpcResponse>)

  const NOTHING := Effect([], [], [])

  function Success(id: RawId, json: string): RpcResponse {
    RpcResponse(id, Some(json), None)
  }

  function ErrorResponse(id: RawId, error: RpcError): RpcResponse {
    RpcResponse(id, None, Some(error))
  }

  function ToRpcError(f: Failure): RpcError {
    match f
    case Rpc(e) => e
    case Plain(_) => RpcError(INTERNAL_ERROR, None)
  }

  /** The response for a finished dispatch. */
  function Reply(id: RawId, d: Dispatched): RpcResponse {
    match d
    case Failed(f) => ErrorResponse(id, ToRpcError(f))
    case NoResult => Success(id, "{}")
    case Value(Some(json)) => Success(id, json)
    case Value(None) => ErrorResponse(id, RpcError(INTERNAL_ERROR, None))
  }

  function Enrich(h: Hooks, m: Message): Context {
    var requestId := if IsNotification(m) then None else Some(Key(m.id));
    match h.metadata(m.params)
    case None => Context(requestId, None, None)
    case Some(meta) =>
      var known := meta.sessionId != "" && h.sessions.Some? && h.sessions.value(meta.sessionId);
      Context(requestId,
              if meta.sender != "" then Some(meta.sender) else None,
              if known then Some(meta.sessionId) else None)
  }

  predicate Unauthorized(h: Hooks, m: Message) {
    h.authorizer.Some? && !h.authorizer.value(m.name, m.params)
  }

  function Invalid(h: Hooks, m: Message): Option<string> {
    if h.validator.Some? then h.validator.value(m.name, m.params) else None
  }

  /** `dispatch`, then `handleRequest` in its own goroutine. */
  function Async(h: Hooks, m: Message): Effect {
    if IsResponse(m) then NOTHING.(routed := [RpcResponse(m.id, m.result, m.error)])
    else if m.name != "" then HandleRequest(h, m)
    else NOTHING
  }

  function HandleRequest(h: Hooks, m: Message): Effect {
    if Unauthorized(h, m) then
      if IsNotification(m) then NOTHING
      else NOTHING.(written := [ErrorResponse(m.id, RpcError(NOT_AUTHORIZED, None))])
    else if Invalid(h, m).Some? then
      if IsNotification(m) then NOTHING
      else NOTHING.(written := [ErrorResponse(m.id, RpcError(INVALID_PARAMS, Invalid(h, m)))])
    else
      var context := Enrich(h, m);
      var d := h.dispatch(context, m.name, m.params);
      Effect([], [Invocation(context, m.name, m.params)], if IsNotification(m) then [] else [Reply(m.id, d)])
  }

  /** `HandleRequestSync`, after decoding. */
  function Sync(h: Hooks, m: Message): Effect {
    if IsResponse(m) then NOTHING.(routed := [RpcResponse(m.id, m.result, m.error)])
    else if Unauthorized(h, m) then NOTHING.(written := [ErrorResponse(m.id, RpcError(NOT_AUTHORIZED, None))])
    else if Invalid(h, m).Some? then NOTHING.(written := [ErrorResponse(m.id, RpcError(INVALID_PARAMS, Invalid(h, m)))])
    else
      var context := Enrich(h, m);
      var d := h.dispatch(context, m.name, m.params);
      Effect([], [Invocation(context, m.name, m.params)], if IsNotification(m) then [] else [Reply(m.id, d)])
  }

  predicate Rejected(h: Hooks, m: Message) {
    Unauthorized(h, m) || Invalid(h, m).Some?
  }

  /**
   * Both pipelines answer alike, except exactly for notifications that the authorizer or the
   * validator rejects, and messages with an id but no method, result or error.
   */
  lemma SameAnswersExcept(h: Hooks, m: Message)
    ensures Sync(h, m).written == Async(h, m).written <==>
            IsResponse(m) || !((IsNotification(m) && Rejected(h, m)) || (m.name == "" && !IsNotification(m)))
  {
  }

  /** Counting handler invocations too, every message without a method, result or error is treated differently. */
  lemma SameEffectsExcept(h: Hooks, m: Message)
    ensures Sync(h, m) == Async(h, m) <==>
            IsResponse(m) || !(m.name == "" || (IsNotification(m) && Rejected(h, m)))
  {
  }

  predicate ExactlyOne(r: RpcResponse) {
    r.result.Some? != r.error.Some?
  }

  /**
   * JSON-RPC 2.0, sections 4.1 and 5: in both pipelines a request with an id gets exactly one
   * response, with its own id and exactly one of result and error; the asynchronous pipeline answers
   * no notification, and a handler runs, once, exactly when the hooks let the message through.
   */
  lemma OneResponsePerRequest(h: Hooks, m: Message)
    requires !IsResponse(m) && m.name != ""
    ensures !IsNotification(m) ==>
              forall e :: e in [Async(h, m), Sync(h, m)] ==>
                |e.written| == 1 && e.written[0].id == m.id && ExactlyOne(e.written[0])
    ensures IsNotification(m) ==> Async(h, m).written == []
    ensures |Async(h, m).invoked| == |Sync(h, m).invoked| == if Rejected(h, m) then 0 else 1
    ensures Rejected(h, m) && !IsNotification(m) ==>
              && Async(h, m).written[0].error.Some?
              && Async(h, m).written[0].error.value.code in {NOT_AUTHORIZED, INVALID_PARAMS}
  {
  }

  /** What both pipelines write for the message. */
  ghost predicate BothWrite(h: Hooks, m: Message, written: seq<RpcResponse>) {
    Async(h, m).written == written && Sync(h, m).written == written
  }

  /**
   * The two refusals of a request with an id, in both pipelines: code -31002 without data if the
   * authorizer says no, whatever the validator would say; code -32602 with the validator's reason if
   * only the validator rejects.
   */
  lemma RefusalsExact(h: Hooks, m: Message)
    requires m.result.None? && m.error.None? && m.name != "" && !m.id.Absent? && !m.id.Null?
    ensures h.authorizer.Some? && !h.authorizer.value(m.name, m.params) ==>
              BothWrite(h, m, [RpcResponse(m.id, None, Some(RpcError(-31002, None)))])
    ensures (h.authorizer.Some? ==> h.authorizer.value(m.name, m.params)) &&
            h.validator.Some? && h.validator.value(m.name, m.params).Some? ==>
              BothWrite(h, m, [RpcResponse(m.id, None, Some(RpcError(-32602, h.validator.value(m.name, m.params))))])
  {
  }

  /** The hooks let the message through, in their own terms. */
  predicate Admitted(h: Hooks, m: Message) {
    && (h.authorizer.Some? ==> h.authorizer.value(m.name, m.params))
    && (h.validator.Some? ==> h.validator.value(m.name, m.params).None?)
  }

  /** A message is invoked, once, exactly if the hooks admit it; its answer follows from what that returns. */
  lemma AdmittedExact(h: Hooks, m: Message)
    requires m.result.None? && m.error.None? && m.name != ""
    ensures |Async(h, m).invoked| == |Sync(h, m).invoked| == if Admitted(h, m) then 1 else 0
    ensures Admitted(h, m) && !m.id.Absent? && !m.id.Null? ==>
              var i := Async(h, m).invoked[0];
              match h.dispatch(i.context, i.name, i.params)
              case NoResult => BothWrite(h, m, [RpcResponse(m.id, Some("{}"), None)])
              case Value(Some(json)) => BothWrite(h, m, [RpcResponse(m.id, Some(json), None)])
              case Value(None) => BothWrite(h, m, [RpcResponse(m.id, None, Some(RpcError(-32603, None)))])
              case Failed(Rpc(e)) => BothWrite(h, m, [RpcResponse(m.id, None, Some(e))])
              case Failed(Plain(_)) => BothWrite(h, m, [RpcResponse(m.id, None, Some(RpcError(-32603, None)))])
  {
  }

  /** A response, and only a response, goes to the calls, whole; it is neither invoked nor answered. */
  lemma ResponsesAreRouted(h: Hooks, m: Message)
    ensures forall e :: e in [Async(h, m), Sync(h, m)] ==>
              if m.result.Some? || m.error.Some?
              then e == Effect([RpcResponse(m.id, m.result, m.error)], [], [])
              else e.routed == []
  {
  }

  /**
   * What the one response says: a result exactly when the handler returned without an error and its
   * value can be marshalled, and an RPC error of the handler unchanged, any other failure being hidden
   * behind the internal-error code.
   */
  lemma ResponseMirrorsOutcome(h: Hooks, m: Message)
    requires !IsResponse(m) && m.name != "" && !IsNotification(m) && !Rejected(h, m)
    ensures var d := h.dispatch(Enrich(h, m), m.name, m.params);
            var r := Async(h, m).written[0];
            && (forall json :: r.result == Some(json) <==> d == Value(Some(json)) || (d == NoResult && json == "{}"))
            && (forall e :: r.error == Some(e) && e.code != -32603 ==> d == Failed(Rpc(e)))
            && (forall e :: d == Failed(Rpc(e)) ==> r.error == Some(e))
            && ((d.Failed? && d.failure.Plain?) || d == Value(None) ==> r.error == Some(RpcError(-32603, None)))
  {
  }

  /** Whatever is invoked is the message itself, under its own id, and in a session the store knows. */
  lemma InvokedWithItsOwnContext(h: Hooks, m: Message)
    ensures forall i :: i in Async(h, m).invoked ==>
              && i.name == m.name && i.params == m.params
              && (i.context.requestId.Some? <==> !IsNotification(m))
              && (m.id.Str? ==> i.context.requestId == Some(m.id.text))
              && (m.id.Other? ==> i.context.requestId == Some(m.id.json))
              && (forall s :: i.context.session == Some(s) <==>
                    s != "" && h.sessions.Some? && h.sessions.value(s) && h.metadata(m.params).Some?
                    && h.metadata(m.params).value.sessionId == s)
              && (forall s :: i.context.sender == Some(s) <==>
                    s != "" && h.metadata(m.params).Some? && h.metadata(m.params).value.sender == s)
  {
  }

  // ---- From bytes ----

  /** The size limit and the two JSON decoders. */
  datatype Decoder = Decoder(
    maxSize: nat,
    batch: seq<byte> -> Option<seq<Message>>,
    single: seq<byte> -> Option<Message>)

  /** What is refused before it is decoded, or because it cannot be, is answered with a null id. */
  function Refused(tooLarge: bool): Effect {
    NOTHING.(written := [ErrorResponse(Null, BadInput(tooLarge))])
  }

  /** One iteration of `Serve`: a batch first, then a single message. */
  function Serve(h: Hooks, d: Decoder, data: seq<byte>): seq<Effect> {
    if |data| > d.maxSize then [Refused(true)]
    else
      match d.batch(data)
      case Some(ms) => seq(|ms|, k requires 0 <= k < |ms| => Async(h, ms[k]))
      case None => [if d.single(data).Some? then Async(h, d.single(data).value) else Refused(false)]
  }

  /** `HandleRequestSync`, which does not know batches. */
  function ServeSync(h: Hooks, d: Decoder, data: seq<byte>): Effect {
    if |data| > d.maxSize then Refused(true)
    else if d.single(data).Some? then Sync(h, d.single(data).value)
    else Refused(false)
  }

  /** The asynchronous pipeline never answers a decoded message with a null id. */
  lemma AnswersCarryTheId(h: Hooks, m: Message)
    ensures forall r :: r in Async(h, m).written ==> r.id == m.id && !r.id.Null? && !r.id.Absent?
  {
  }

  function Written(es: seq<Effect>): seq<RpcResponse> {
    if es == [] then [] else es[0].written + Written(es[1..])
  }

  lemma {:induction false} WrittenFrom(es: seq<Effect>, r: RpcResponse)
    requires r in Written(es)
    ensures exists e :: e in es && r in e.written
  {
    if r in es[0].written {
      assert es[0] in es;
    } else {
      WrittenFrom(es[1..], r);
    }
  }

  /** A batch is never answered the way a refused message is. */
  lemma BatchNotRefused(h: Hooks, ms: seq<Message>)
    ensures Written(seq(|ms|, k requires 0 <= k < |ms| => Async(h, ms[k]))) != Refused(false).written
  {
    var es := seq(|ms|, k requires 0 <= k < |ms| => Async(h, ms[k]));
    if Written(es) == Refused(false).written {
      var r := ErrorResponse(Null, BadInput(false));
      assert r in Refused(false).written;
      WrittenFrom(es, r);
      var k :| 0 <= k < |es| && r in es[k].written;
      AnswersCarryTheId(h, ms[k]);
      assert false;
    }
  }

  /**
   * What the read loop makes of a byte string: one null-id error -32600 if it is too long, the messages of
   * a batch one by one and in order, a single message by itself, and one null-id error -32700 otherwise.
   */
  lemma ServeExact(h: Hooks, d: Decoder, data: seq<byte>)
    ensures |data| > d.maxSize ==>
              Serve(h, d, data) == [ServeSync(h, d, data)] &&
              ServeSync(h, d, data)
              == Effect([], [], [RpcResponse(Null, None, Some(RpcError(-32600, Some("message too large"))))])
    ensures |data| <= d.maxSize && d.batch(data).Some? ==>
              && |Serve(h, d, data)| == |d.batch(data).value|
              && forall k :: 0 <= k < |d.batch(data).value| ==> Serve(h, d, data)[k] == Async(h, d.batch(data).value[k])
    ensures |data| <= d.maxSize && d.batch(data).None? && d.single(data).Some? ==>
              Serve(h, d, data) == [Async(h, d.single(data).value)]
    ensures |data| <= d.maxSize && d.batch(data).None? && d.single(data).None? ==>
              Serve(h, d, data) == [Effect([], [], [RpcResponse(Null, None, Some(RpcError(-32700, None)))])]
    ensures |data| <= d.maxSize ==>
              ServeSync(h, d, data)
              == if d.single(data).Some? then Sync(h, d.single(data).value)
                 else Effect([], [], [RpcResponse(Null, None, Some(RpcError(-32700, None)))])
  {
  }

  lemma WrittenOne(e: Effect)
    ensures Written([e]) == e.written
  {
    assert [e][1..] == [];
  }

  /**
   * Over all byte strings, the pipelines agree on what they answer, except exactly on batches and on the
   * single messages named above. What decodes as a batch, a JSON array, does not decode as a message.
   */
  lemma SameBytesExcept(h: Hooks, d: Decoder, data: seq<byte>)
    requires d.batch(data).Some? ==> d.single(data).None?
    ensures Written(Serve(h, d, data)) == ServeSync(h, d, data).written <==>
            || |data| > d.maxSize
            || (d.batch(data).None? &&
                (d.single(data).Some? ==>
                   Sync(h, d.single(data).value).written == Async(h, d.single(data).value).written))
  {
    if |data| <= d.maxSize && d.batch(data).Some? {
      BatchNotRefused(h, d.batch(data).value);
    } else {
      WrittenOne(Serve(h, d, data)[0]);
    }
  }
}
