/** The ingress side of teams-hook.go: `webhookHandler`, a three-way choice
    between rejecting the request method, broadcasting the body to the subscribers,
    and echoing the `validationToken` query value back. */
module Webhook {
  import opened Wire
  import opened Registry

  /** The response the handler writes: a status, a `Content-Type` header
      when one is set, and the body bytes. */
  datatype Response = Response(status: int, contentType: Option<string>, body: seq<byte>)

  /** The handler's decision: the response, and the bytes it hands to
      `notifySockets`, if any. */
  datatype WebhookResult = WebhookResult(response: Response, broadcast: Option<seq<byte>>)

  const StatusOK := 200
  const StatusMethodNotAllowed := 405

  /** `webhookHandler` for an HTTP method, the `validationToken` query value
      (empty when absent, as `Query().Get` returns it) and the request body. */
  function HandleWebhook(httpMethod: string, validationToken: seq<byte>, body: seq<byte>): (r: WebhookResult)
    ensures httpMethod != "POST" ==>
      r.response.status == StatusMethodNotAllowed && r.response.body == [] && r.broadcast == None
    ensures httpMethod == "POST" && validationToken == [] ==>
      r.broadcast == Some(body) && r.response == Response(StatusOK, None, [])
    ensures httpMethod == "POST" && validationToken != [] ==>
      r.broadcast == None && r.response == Response(StatusOK, Some("text/plain"), validationToken)
  {
    if httpMethod == "POST" then
      if validationToken == [] then WebhookResult(Response(StatusOK, None, []), Some(body))
      else WebhookResult(Response(StatusOK, Some("text/plain"), validationToken), None)
    else WebhookResult(Response(StatusMethodNotAllowed, None, []), None)
  }

  /** A broadcast happens exactly for a POST without a validation token, and
      a response body is written exactly for a POST with one; the two never
      go together. */
  lemma BroadcastXorEcho(httpMethod: string, validationToken: seq<byte>, body: seq<byte>)
    ensures var r := HandleWebhook(httpMethod, validationToken, body);
      && (r.broadcast.Some? <==> httpMethod == "POST" && validationToken == [])
      && (r.response.body != [] <==> httpMethod == "POST" && validationToken != [])
      && !(r.broadcast.Some? && r.response.body != [])
      && (r.response.status == StatusMethodNotAllowed <==> httpMethod != "POST")
  {
  }

  /** `webhookHandler` with the registry it notifies: the response and the
      writes made to the subscribers (`writeOk` gives their outcomes). */
  method ServeWebhook(reg: Registry, httpMethod: string, validationToken: seq<byte>, body: seq<byte>, writeOk: seq<bool>)
    returns (response: Response, writes: seq<Write>)
    requires |writeOk| == |reg.connections|
    ensures response == HandleWebhook(httpMethod, validationToken, body).response
    ensures httpMethod == "POST" && validationToken == [] ==> writes == Broadcast(reg.connections, body, writeOk)
    ensures !(httpMethod == "POST" && validationToken == []) ==> writes == []
    ensures httpMethod == "POST" && validationToken == [] && (forall j :: 0 <= j < |writeOk| ==> writeOk[j]) ==>
      Delivered(writes) == reg.connections && forall w :: w in writes ==> w.payload == body
  {
    var r := HandleWebhook(httpMethod, validationToken, body);
    response := r.response;
    writes := [];
    if r.broadcast.Some? {
      var count;
      writes, count := reg.NotifySockets(r.broadcast.value, writeOk);
      if forall j :: 0 <= j < |writeOk| ==> writeOk[j] {
        AllWritesSucceed(reg.connections, body, writeOk);
      }
    }
  }
}
