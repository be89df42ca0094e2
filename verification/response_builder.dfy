/** The Kakao skill-response envelope (`src/kakao/responseBuilder.js`) and
    the leaner builder of the serverless handlers (`lib/kakao.js`). */
module ResponseBuilder {
  import opened Js

  /** A quick reply as a caller writes it; an absent field is `Undefined`.
      `caption` is the JSON `label` field. */
  datatype ReplySpec = ReplySpec(caption: Value, action: Value, messageText: Value)

  /** A quick reply as it goes into the response. */
  datatype QuickReply = QuickReply(caption: Value, action: Value, messageText: Value)

  /** `{ version, template: { outputs: [{ simpleText: { text } }], quickReplies } }`:
      `outputs` holds the text of each `simpleText` output. */
  datatype Response = Response(version: string, outputs: seq<string>, quickReplies: seq<QuickReply>)

  /** A spec with a label and a message text and no action. */
  function Spec(caption: string, text: string): ReplySpec {
    ReplySpec(Str(caption), Undefined, Str(text))
  }

  /** `buildQuickReply`: `action` defaults only when absent (a `null` action
      stays), `messageText` falls back to the label when null or absent. */
  function BuildQuickReply(spec: ReplySpec): (q: QuickReply)
    ensures q.caption == spec.caption
    ensures spec.action.Undefined? ==> q.action == Str("message")
    ensures !spec.action.Undefined? ==> q.action == spec.action
    ensures Nullish(spec.messageText) ==> q.messageText == spec.caption
    ensures !Nullish(spec.messageText) ==> q.messageText == spec.messageText
  {
    QuickReply(
      spec.caption,
      if spec.action.Undefined? then Str("message") else spec.action,
      Coalesce(spec.messageText, spec.caption))
  }

  /** Feeding a built reply back through the builder changes nothing. */
  lemma QuickReplyIdempotent(spec: ReplySpec)
    ensures var q := BuildQuickReply(spec);
      BuildQuickReply(ReplySpec(q.caption, q.action, q.messageText)) == q
  {
  }

  /** `buildSimpleTextResponse`: version "2.0", one text output, and one
      built quick reply per spec, in order. */
  function BuildSimpleTextResponse(text: string, replies: seq<ReplySpec>): (r: Response)
    ensures r.version == "2.0" && r.outputs == [text]
    ensures |r.quickReplies| == |replies|
    ensures forall i :: 0 <= i < |replies| ==> r.quickReplies[i] == BuildQuickReply(replies[i])
  {
    Response("2.0", [text], seq(|replies|, i requires 0 <= i < |replies| => BuildQuickReply(replies[i])))
  }

  /** Specs written with `Spec` become plain "message" replies. */
  lemma SpecRepliesAreMessages(text: string, captions: seq<string>, texts: seq<string>)
    requires |captions| == |texts|
    ensures var specs := seq(|captions|, i requires 0 <= i < |captions| => Spec(captions[i], texts[i]));
      var r := BuildSimpleTextResponse(text, specs);
      forall i :: 0 <= i < |captions| ==>
        r.quickReplies[i] == QuickReply(Str(captions[i]), Str("message"), Str(texts[i]))
  {
  }

  const ErrorReplies: seq<ReplySpec> := [Spec("도움말", "도움말"), Spec("오늘 급식", "오늘 급식 알려줘")]

  /** `buildErrorResponse`: the message with two fixed quick replies. */
  function BuildErrorResponse(message: string): (r: Response)
    ensures r.version == "2.0" && r.outputs == [message]
    ensures r.quickReplies == [
      QuickReply(Str("도움말"), Str("message"), Str("도움말")),
      QuickReply(Str("오늘 급식"), Str("message"), Str("오늘 급식 알려줘"))]
  {
    BuildSimpleTextResponse(message, ErrorReplies)
  }

  // -------------------------------------------------------- lib/kakao.js

  /** An entry of `quick`: only `label` and `messageText` are read. */
  datatype QuickInput = QuickInput(caption: Value, messageText: Value)

  /** `simpleText`: the text untouched, and every quick reply a "message"
      reply copying `label` and `messageText` with no default. */
  function SimpleText(text: string, quick: seq<QuickInput>): (r: Response)
    ensures r.version == "2.0" && r.outputs == [text]
    ensures |r.quickReplies| == |quick|
    ensures forall i :: 0 <= i < |quick| ==>
      r.quickReplies[i] == QuickReply(quick[i].caption, Str("message"), quick[i].messageText)
  {
    Response("2.0", [text],
      seq(|quick|, i requires 0 <= i < |quick| => QuickReply(quick[i].caption, Str("message"), quick[i].messageText)))
  }

  /** The two builders agree exactly when every quick reply's message
      text is present or already equal to its label: the newer one
      substitutes the label for a missing text, the older one keeps the
      hole. */
  lemma SimpleTextAgreesWithBuilder(text: string, quick: seq<QuickInput>)
    ensures var specs := seq(|quick|, i requires 0 <= i < |quick| =>
                               ReplySpec(quick[i].caption, Undefined, quick[i].messageText));
      (SimpleText(text, quick) == BuildSimpleTextResponse(text, specs)) <==>
        forall i :: 0 <= i < |quick| ==> !Nullish(quick[i].messageText) || quick[i].messageText == quick[i].caption
  {
    var specs := seq(|quick|, i requires 0 <= i < |quick| =>
                       ReplySpec(quick[i].caption, Undefined, quick[i].messageText));
    var a, b := SimpleText(text, quick), BuildSimpleTextResponse(text, specs);
    if a == b {
      forall i | 0 <= i < |quick|
        ensures !Nullish(quick[i].messageText) || quick[i].messageText == quick[i].caption
      {
        assert a.quickReplies[i] == b.quickReplies[i];
      }
    }
  }
}
