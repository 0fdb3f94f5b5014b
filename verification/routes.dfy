/** The two request handlers of the relay, with their I/O replaced by inputs: `lookup`, which
    answers a slash command with the referenced issue, and `webhook`, which forwards a tracker
    event to the chat. Each is a pure function from what the worker hands it to the response it
    produces. */
module Routes {
  import opened Results
  import opened Strings
  import opened GithubModel
  import opened SlackModel
  import opened RoutesModel
  import opened GithubAdapter
  import opened CreatedAt
  import opened SlackAdapter

  /** An `unwrap` on a failed value, which aborts the request. */
  datatype Panic =
    | FormDecodeFailed
    | CreatedAtUnreadable(error: FormatError)

  /** What a handler ends with. `Respond` is a plain response with a status and a text body;
      `RespondJson` a 200 response carrying a message; `Propagate` an error handed back to the
      worker by `?`; `Abort` a panic. */
  datatype Outcome =
    | Respond(status: nat, body: string)
    | RespondJson(message: Message)
    | Propagate(error: string)
    | Abort(panic: Panic)

  /** The debug form of the worker's `RustError` wrapping a message. Escaping of quotes and
      control characters inside the message is not part of this model. */
  function RustErrorDebug(msg: string): string {
    "RustError(\"" + msg + "\")"
  }

  // ---------------------------------------------------------------------------------------
  // lookup

  /** `lookup`. Inputs: the request body as read (or the error reading it), the form decoder,
      and the issue fetch, which is handed the URL the extractor builds from the decoded
      `text` field. An empty body is answered 404 before anything else happens; a form that
      does not decode panics; a failed fetch is answered 500 with the error; otherwise the
      fetched item is rendered, with the raw body as the link's caption and an empty prefix,
      into a single-block message for the channel. */
  function Lookup(body: Result<string, string>,
                  decodeForm: string -> Option<SlashCommandRequest>,
                  fetch: string -> Result<TrackedItem, string>): (o: Outcome)
    ensures o.Propagate? <==> body.Err?
    ensures body.Err? ==> o == Propagate(body.error)
    ensures o == Respond(404, "Not found") <==> body == Ok("")
    ensures o.Abort? ==> body.Ok? && body.value != "" && (decodeForm(body.value).None? || o.panic.CreatedAtUnreadable?)
    ensures body.Ok? && body.value != "" && decodeForm(body.value).None? ==> o == Abort(FormDecodeFailed)
    ensures o.Respond? && o.status == 500 ==>
      (body.Ok? && decodeForm(body.value).Some?
       && fetch(ApiUrl(decodeForm(body.value).value.text)).Err?
       && o.body == RustErrorDebug(fetch(ApiUrl(decodeForm(body.value).value.text)).error))
    ensures o.RespondJson? ==> o.message.responseType == "in_channel" && |o.message.blocks| == 1
  {
    match body
    case Err(e) => Propagate(e)
    case Ok(b) =>
      if |b| == 0 then Respond(404, "Not found")
      else
        match decodeForm(b)
        case None => Abort(FormDecodeFailed)
        case Some(params) =>
          match fetch(ApiUrl(params.text))
          case Err(e) => Respond(500, RustErrorDebug(e))
          case Ok(item) =>
            match TextLines(item, b, "")
            case Err(fe) => Abort(CreatedAtUnreadable(fe))
            case Ok(lines) => RespondJson(Message([ConstructBlock(item, lines)], "in_channel"))
  }

  /** An empty body is answered 404 whatever the decoder and the fetch would have done: neither
      is consulted. */
  lemma LookupEmptyBody(decode1: string -> Option<SlashCommandRequest>,
                        fetch1: string -> Result<TrackedItem, string>,
                        decode2: string -> Option<SlashCommandRequest>,
                        fetch2: string -> Result<TrackedItem, string>)
    ensures Lookup(Ok(""), decode1, fetch1) == Lookup(Ok(""), decode2, fetch2) == Respond(404, "Not found")
  {
  }

  /** A non-empty body that does not decode as a form panics, whatever the fetch would have
      done: the fetch is not consulted. */
  lemma LookupFormFails(b: string, decodeForm: string -> Option<SlashCommandRequest>,
                        fetch1: string -> Result<TrackedItem, string>,
                        fetch2: string -> Result<TrackedItem, string>)
    requires b != "" && decodeForm(b).None?
    ensures Lookup(Ok(b), decodeForm, fetch1) == Lookup(Ok(b), decodeForm, fetch2) == Abort(FormDecodeFailed)
  {
  }

  /** The fetch is consulted at one URL only, the one built from the last reference in the
      decoded `text`: two fetches that agree there give the same outcome. */
  lemma LookupFetchesOneUrl(b: string, decodeForm: string -> Option<SlashCommandRequest>,
                            fetch1: string -> Result<TrackedItem, string>,
                            fetch2: string -> Result<TrackedItem, string>)
    requires b != "" && decodeForm(b).Some?
    requires fetch1(ApiUrl(decodeForm(b).value.text)) == fetch2(ApiUrl(decodeForm(b).value.text))
    ensures Lookup(Ok(b), decodeForm, fetch1) == Lookup(Ok(b), decodeForm, fetch2)
  {
  }

  /** A failed fetch is answered 500 with the error's debug form, and no message is built. */
  lemma LookupFetchFails(b: string, decodeForm: string -> Option<SlashCommandRequest>,
                         fetch: string -> Result<TrackedItem, string>, e: string)
    requires b != "" && decodeForm(b).Some?
    requires fetch(ApiUrl(decodeForm(b).value.text)) == Err(e)
    ensures Lookup(Ok(b), decodeForm, fetch) == Respond(500, RustErrorDebug(e))
  {
  }

  /** A fetched item with a readable timestamp is answered with one block: the item's lines with
      an empty prefix, so a leading line break, and the raw request body, not the decoded
      reference, as the caption of the item link; the author's avatar beside them. */
  lemma LookupAnswers(b: string, decodeForm: string -> Option<SlashCommandRequest>,
                      fetch: string -> Result<TrackedItem, string>, item: TrackedItem)
    requires b != "" && decodeForm(b).Some?
    requires fetch(ApiUrl(decodeForm(b).value.text)) == Ok(item)
    requires IsRfc3339Utc(item.createdAt)
    ensures Lookup(Ok(b), decodeForm, fetch).RespondJson?
    ensures Lookup(Ok(b), decodeForm, fetch).message.blocks
      == [ConstructBlock(item, TextLines(item, b, "").value)]
    ensures TextLines(item, b, "").value == FlatText("", item.title, item.htmlUrl, b, item.body,
      item.state, item.user.htmlUrl, item.user.login,
      item.createdAt[..10] + " " + item.createdAt[11..19])
    ensures TextLines(item, b, "").value[0] == '\n'
  {
  }

  /** A fetched item whose timestamp does not read aborts the request. */
  lemma LookupUnreadableTimestamp(b: string, decodeForm: string -> Option<SlashCommandRequest>,
                                  fetch: string -> Result<TrackedItem, string>, item: TrackedItem)
    requires b != "" && decodeForm(b).Some?
    requires fetch(ApiUrl(decodeForm(b).value.text)) == Ok(item)
    requires !IsRfc3339Utc(item.createdAt)
    ensures Lookup(Ok(b), decodeForm, fetch) == Abort(CreatedAtUnreadable(UnparsableCreatedAt(item.createdAt)))
  {
  }

  // ---------------------------------------------------------------------------------------
  // webhook

  /** The item a delivery is about: the issue when only an issue is present, the pull request
      when only a pull request is present, and nothing when both or neither are. */
  function Select(req: WebhookRequest): (r: Option<TrackedItem>)
    ensures r.Some? <==> req.issue.Some? != req.pullRequest.Some?
    ensures r.Some? ==> r == req.issue || r == req.pullRequest
  {
    match (req.issue, req.pullRequest)
    case (Some(i), None) => Some(i)
    case (None, Some(p)) => Some(p)
    case _ => None
  }

  /** The text of a failed dispatch begins with this. */
  const DispatchFailurePrefix := "Unable to handle webhook, message:"

  /** `webhook`. Inputs: the decoded delivery (or the decoding error), the message builder,
      the `SLACK_WEBHOOK_URL` secret (or the error looking it up) and the dispatch. A delivery
      that does not decode is handed back; one without exactly one item is answered 400 before
      the secret or the dispatch is touched; a builder panic aborts; a missing secret is handed
      back before any dispatch; then the dispatch decides between 200 and 500. */
  function Webhook(payload: Result<WebhookRequest, string>,
                   createMessage: (TrackedItem, WebhookRequest) -> Result<seq<Block>, Panic>,
                   secret: Result<string, string>,
                   send: (string, seq<Block>) -> Result<(), string>): (o: Outcome)
    ensures o == Respond(400, "Unknown payload") <==> payload.Ok? && Select(payload.value).None?
    ensures o == Respond(200, "OK") <==>
      payload.Ok? && Select(payload.value).Some?
      && createMessage(Select(payload.value).value, payload.value).Ok?
      && secret.Ok?
      && send(secret.value, createMessage(Select(payload.value).value, payload.value).value).Ok?
    ensures o.Respond? && o.status == 500 ==> DispatchFailurePrefix <= o.body
    ensures !o.RespondJson?
    ensures payload.Err? ==> o == Propagate(payload.error)
    ensures o.Abort? <==>
      payload.Ok? && Select(payload.value).Some?
      && createMessage(Select(payload.value).value, payload.value).Err?
    ensures o.Abort? ==> o.panic == createMessage(Select(payload.value).value, payload.value).error
  {
    match payload
    case Err(e) => Propagate(e)
    case Ok(req) =>
      match Select(req)
      case None => Respond(400, "Unknown payload")
      case Some(item) =>
        match createMessage(item, req)
        case Err(p) => Abort(p)
        case Ok(blocks) =>
          match secret
          case Err(e) => Propagate(e)
          case Ok(url) =>
            match send(url, blocks)
            case Ok(_) => Respond(200, "OK")
            case Err(e) => Respond(500, DispatchFailurePrefix + RustErrorDebug(e))
  }

  /** A delivery without exactly one item is rejected the same way whatever the builder, the
      secret and the dispatch: none of them is consulted. */
  lemma WebhookRejectsFirst(req: WebhookRequest,
                            create1: (TrackedItem, WebhookRequest) -> Result<seq<Block>, Panic>,
                            secret1: Result<string, string>,
                            send1: (string, seq<Block>) -> Result<(), string>,
                            create2: (TrackedItem, WebhookRequest) -> Result<seq<Block>, Panic>,
                            secret2: Result<string, string>,
                            send2: (string, seq<Block>) -> Result<(), string>)
    requires req.issue.Some? == req.pullRequest.Some?
    ensures Webhook(Ok(req), create1, secret1, send1) == Webhook(Ok(req), create2, secret2, send2)
    ensures Webhook(Ok(req), create1, secret1, send1) == Respond(400, "Unknown payload")
  {
  }

  /** A delivery that does not decode is handed back as the error, whatever the builder, the
      secret and the dispatch: none of them is consulted. */
  lemma WebhookDecodeFails(e: string,
                           create1: (TrackedItem, WebhookRequest) -> Result<seq<Block>, Panic>,
                           secret1: Result<string, string>,
                           send1: (string, seq<Block>) -> Result<(), string>,
                           create2: (TrackedItem, WebhookRequest) -> Result<seq<Block>, Panic>,
                           secret2: Result<string, string>,
                           send2: (string, seq<Block>) -> Result<(), string>)
    ensures Webhook(Err(e), create1, secret1, send1) == Webhook(Err(e), create2, secret2, send2)
    ensures Webhook(Err(e), create1, secret1, send1) == Propagate(e)
  {
  }

  /** A builder that panics aborts the request before the secret or the dispatch is
      consulted. */
  lemma WebhookBuilderFails(req: WebhookRequest,
                            createMessage: (TrackedItem, WebhookRequest) -> Result<seq<Block>, Panic>,
                            p: Panic,
                            secret1: Result<string, string>,
                            send1: (string, seq<Block>) -> Result<(), string>,
                            secret2: Result<string, string>,
                            send2: (string, seq<Block>) -> Result<(), string>)
    requires Select(req).Some? && createMessage(Select(req).value, req) == Err(p)
    ensures Webhook(Ok(req), createMessage, secret1, send1) == Webhook(Ok(req), createMessage, secret2, send2)
    ensures Webhook(Ok(req), createMessage, secret1, send1) == Abort(p)
  {
  }

  /** A missing secret is handed back before any dispatch: the dispatch does not matter. */
  lemma WebhookMissingSecret(req: WebhookRequest,
                             createMessage: (TrackedItem, WebhookRequest) -> Result<seq<Block>, Panic>,
                             e: string,
                             send1: (string, seq<Block>) -> Result<(), string>,
                             send2: (string, seq<Block>) -> Result<(), string>)
    requires Select(req).Some? && createMessage(Select(req).value, req).Ok?
    ensures Webhook(Ok(req), createMessage, Err(e), send1) == Propagate(e)
    ensures Webhook(Ok(req), createMessage, Err(e), send1) == Webhook(Ok(req), createMessage, Err(e), send2)
  {
  }

  /** A failed dispatch is answered 500 with the dispatch error after the fixed text. */
  lemma WebhookDispatchFails(req: WebhookRequest,
                             createMessage: (TrackedItem, WebhookRequest) -> Result<seq<Block>, Panic>,
                             url: string,
                             send: (string, seq<Block>) -> Result<(), string>, e: string)
    requires Select(req).Some? && createMessage(Select(req).value, req).Ok?
    requires send(url, createMessage(Select(req).value, req).value) == Err(e)
    ensures Webhook(Ok(req), createMessage, Ok(url), send)
      == Respond(500, DispatchFailurePrefix + "RustError(\"" + e + "\")")
  {
  }

  // ---------------------------------------------------------------------------------------
  // The message builder the route tests compose

  /** The `owner/repository#number` reference of a delivery's item. */
  function WebhookReference(req: WebhookRequest, item: TrackedItem): string {
    req.repository.owner.login + "/" + req.repository.name + "#" + DecimalText(item.number)
  }

  /** The first line, `An <label> was <action>`. The label is read from the delivery by a
      function whose definition is not part of this model; it is an input here. */
  function WebhookPrefix(labelOf: WebhookRequest -> string, req: WebhookRequest): string {
    "An " + labelOf(req) + " was " + req.action
  }

  /** Two first lines for the same action agree exactly when the labels do. */
  lemma WebhookPrefixInjective(l1: WebhookRequest -> string, l2: WebhookRequest -> string,
                               req: WebhookRequest)
    ensures WebhookPrefix(l1, req) == WebhookPrefix(l2, req) <==> l1(req) == l2(req)
  {
    var p1, p2 := WebhookPrefix(l1, req), WebhookPrefix(l2, req);
    if p1 == p2 {
      var n := |l1(req)|;
      assert p1[3..3 + n] == l1(req);
      assert p2[3..3 + n] == l2(req);
    }
  }

  /** The builder as the route tests compose it: the item's lines, captioned with the
      reference and headed by the prefix, in a single block. */
  function CreateMessageInTests(labelOf: WebhookRequest -> string): (TrackedItem, WebhookRequest) -> Result<seq<Block>, Panic> {
    (item: TrackedItem, req: WebhookRequest) =>
      match TextLines(item, WebhookReference(req, item), WebhookPrefix(labelOf, req))
      case Err(fe) => Err(CreatedAtUnreadable(fe))
      case Ok(lines) => Ok([ConstructBlock(item, lines)])
  }

  /** With a readable timestamp the builder of the route tests gives exactly the block the route tests
      expect: a section with the lines as its markdown text and the author's avatar and login
      as its image. */
  lemma RouteTestMessageShape(labelOf: WebhookRequest -> string, item: TrackedItem, req: WebhookRequest)
    requires IsRfc3339Utc(item.createdAt)
    ensures CreateMessageInTests(labelOf)(item, req) == Ok([Block("section",
      Text("mrkdwn", TextLines(item, WebhookReference(req, item), WebhookPrefix(labelOf, req)).value),
      Accessory("image", item.user.avatarUrl, item.user.login))])
  {
  }

  /** The label reaches the message: with a readable timestamp, two label functions give the
      same message exactly when they read the same label from the delivery. */
  lemma {:induction false} LabelShowsInMessage(l1: WebhookRequest -> string, l2: WebhookRequest -> string,
                                               item: TrackedItem, req: WebhookRequest)
    requires IsRfc3339Utc(item.createdAt)
    ensures CreateMessageInTests(l1)(item, req) == CreateMessageInTests(l2)(item, req) <==> l1(req) == l2(req)
  {
    var text := WebhookReference(req, item);
    var lines1 := TextLines(item, text, WebhookPrefix(l1, req)).value;
    var lines2 := TextLines(item, text, WebhookPrefix(l2, req)).value;
    WebhookPrefixInjective(l1, l2, req);
    if CreateMessageInTests(l1)(item, req) == CreateMessageInTests(l2)(item, req) {
      assert [ConstructBlock(item, lines1)][0] == [ConstructBlock(item, lines2)][0];
      BlockKeepsLines(item, lines1, lines2);
      TextLinesPrefixInjective(item, text, WebhookPrefix(l1, req), WebhookPrefix(l2, req));
    }
  }

  /** The builder of the route tests treats an issue and a pull request with the same fields
      alike for one delivery; so, as long as the label reads the same from both, the webhook
      answers a delivery carrying only the one exactly as it answers the same delivery carrying
      only the other. */
  lemma IssueAndPullRequestAlike(labelOf: WebhookRequest -> string, item: TrackedItem, req: WebhookRequest,
                                 secret: Result<string, string>,
                                 send: (string, seq<Block>) -> Result<(), string>)
    ensures CreateMessageInTests(labelOf)(item.OtherKind(), req) == CreateMessageInTests(labelOf)(item, req)
    ensures var r1 := req.(issue := Some(item), pullRequest := None);
            var r2 := req.(issue := None, pullRequest := Some(item.OtherKind()));
            labelOf(r1) == labelOf(r2) ==>
              Webhook(Ok(r1), CreateMessageInTests(labelOf), secret, send)
                == Webhook(Ok(r2), CreateMessageInTests(labelOf), secret, send)
  {
    TextLinesIgnoreKind(item, WebhookReference(req, item), WebhookPrefix(labelOf, req));
    var r1 := req.(issue := Some(item), pullRequest := None);
    var r2 := req.(issue := None, pullRequest := Some(item.OtherKind()));
    if labelOf(r1) == labelOf(r2) {
      assert WebhookReference(r1, item) == WebhookReference(r2, item.OtherKind());
      assert WebhookPrefix(labelOf, r1) == WebhookPrefix(labelOf, r2);
      TextLinesIgnoreKind(item, WebhookReference(r1, item), WebhookPrefix(labelOf, r1));
    }
  }

  /** The reference a delivery's message is captioned with is one the extractor reads back:
      when the owner and repository names are drawn from `[\w.-]`, a slash command quoting it
      fetches that item. */
  lemma WebhookReferenceRoundTrip(req: WebhookRequest, item: TrackedItem)
    requires AllNameChars(req.repository.owner.login) && AllNameChars(req.repository.name)
    ensures Captures(WebhookReference(req, item))
      == [Capture(req.repository.owner.login, req.repository.name, DecimalText(item.number))]
    ensures ApiUrl(WebhookReference(req, item)) == "https://api.github.com/repos/"
      + req.repository.owner.login + "/" + req.repository.name + "/issues/" + DecimalText(item.number)
  {
    var c := Capture(req.repository.owner.login, req.repository.name, DecimalText(item.number));
    assert Render(c) == WebhookReference(req, item);
    RenderRoundTrip(c);
  }

  /** A delivery is forwarded, with the builder of the route tests, exactly when it carries one item with a
      readable timestamp, the secret is present and the dispatch succeeds. */
  lemma RouteTestWebhookOk(req: WebhookRequest, labelOf: WebhookRequest -> string, secret: Result<string, string>,
                        send: (string, seq<Block>) -> Result<(), string>)
    ensures Webhook(Ok(req), CreateMessageInTests(labelOf), secret, send) == Respond(200, "OK") <==>
      Select(req).Some? && IsRfc3339Utc(Select(req).value.createdAt) && secret.Ok?
        && send(secret.value, CreateMessageInTests(labelOf)(Select(req).value, req).value).Ok?
  {
  }
}
