/** `Message` of messagesystem.py: a text message taken from an inbound job request, its
    acknowledgment and the request that forwards it to the recipient. */
module Messages {
  import opened Frames
  import opened Codec
  import opened Skeletons

  /** `random.randrange(9999999999+1)` draws from 0 to 9999999999: ten decimal digits at most. */
  const MaxInternalId: int := 9999999999
  type InternalId = x: int | 0 <= x <= MaxInternalId

  /** A queued text message. The text fields are the `.text` of the elements they come from;
      `internalExtId` is the id the gateway puts in the `externalid` of the requests it sends. */
  datatype Message = Message(
    created: real,
    lastSendTry: real,
    extId: Text,
    message: Text,
    fromName: Text,
    fromExt: Text,
    fromLoc: Text,
    toExt: Text,
    sysdataDatetime: Text,
    sysdataTs: Text,
    internalExtId: InternalId)

  /** The elements `Message.__init__` reads, in the order it reads them. */
  const MessagePaths: seq<string> := [
    "externalid", "jobdata/messages/messageuui", "senderdata/name", "senderdata/address",
    "senderdata/location", "persondata/address", "systemdata/datetime", "systemdata/timestamp"]

  /** `Message(xml_message)` at time `now`, with `id` the value `randrange` drew. None where the
      constructor raises: one of the looked-up elements is missing (`.text` of None). */
  function NewMessage(f: Frame, now: real, id: InternalId): (r: Option<Message>)
    ensures r.Some? <==> forall p | p in MessagePaths :: p in f.texts
    ensures r.Some? ==> r.value.created == now && r.value.lastSendTry == 0.0 && r.value.internalExtId == id
    ensures r.Some? ==> && r.value.extId == f.texts["externalid"]
                        && r.value.message == f.texts["jobdata/messages/messageuui"]
                        && r.value.fromName == f.texts["senderdata/name"]
                        && r.value.fromExt == f.texts["senderdata/address"]
                        && r.value.fromLoc == f.texts["senderdata/location"]
                        && r.value.toExt == f.texts["persondata/address"]
                        && r.value.sysdataDatetime == f.texts["systemdata/datetime"]
                        && r.value.sysdataTs == f.texts["systemdata/timestamp"]
  {
    if forall p | p in MessagePaths :: p in f.texts then
      Some(Message(
        created := now,
        lastSendTry := 0.0,
        extId := f.texts["externalid"],
        message := f.texts["jobdata/messages/messageuui"],
        fromName := f.texts["senderdata/name"],
        fromExt := f.texts["senderdata/address"],
        fromLoc := f.texts["senderdata/location"],
        toExt := f.texts["persondata/address"],
        sysdataDatetime := f.texts["systemdata/datetime"],
        sysdataTs := f.texts["systemdata/timestamp"],
        internalExtId := id))
    else None
  }

  // ---------------------------------------------------------------------------------------------
  // Encoders

  /** The text a field contributes to a document; an element without text counts as empty. */
  function TextOr(t: Text): string
  {
    if t.Some? then t.value else ""
  }

  /** The `externalid` of a forwarded request: `"{:010}".format(internal_ext_id)`. */
  function InternalIdText(m: Message): string
  {
    FormatZeroPadded(m.internalExtId, 10)
  }

  /** `get_messageresponse`: the acknowledgment, by the same chain of literal replacements, where a
      field without text fills its placeholder with nothing. */
  function GetMessageResponse(m: Message): string
  {
    var doc := Render(AckTemplate);
    var doc := Replace(doc, PlaceholderOf(Eid), TextOr(m.extId));
    var doc := Replace(doc, PlaceholderOf(FromExt), TextOr(m.fromExt));
    var doc := Replace(doc, PlaceholderOf(FromName), TextOr(m.fromName));
    var doc := Replace(doc, PlaceholderOf(FromLoc), TextOr(m.fromLoc));
    var doc := Replace(doc, PlaceholderOf(ToExt), TextOr(m.toExt));
    var doc := Replace(doc, PlaceholderOf(Dt), TextOr(m.sysdataDatetime));
    Replace(doc, PlaceholderOf(Ts), TextOr(m.sysdataTs))
  }

  /** `get_message`: the request that forwards the message, with the internal id as `externalid`. */
  function GetMessage(m: Message): string
  {
    var doc := Render(RequestTemplate);
    var doc := Replace(doc, PlaceholderOf(Eid), InternalIdText(m));
    var doc := Replace(doc, PlaceholderOf(FromExt), TextOr(m.fromExt));
    var doc := Replace(doc, PlaceholderOf(FromName), TextOr(m.fromName));
    var doc := Replace(doc, PlaceholderOf(FromLoc), TextOr(m.fromLoc));
    var doc := Replace(doc, PlaceholderOf(ToExt), TextOr(m.toExt));
    var doc := Replace(doc, PlaceholderOf(Dt), TextOr(m.sysdataDatetime));
    var doc := Replace(doc, PlaceholderOf(Ts), TextOr(m.sysdataTs));
    Replace(doc, PlaceholderOf(Msg), TextOr(m.message))
  }

  /** The acknowledgment ends in the NUL that terminates a frame, whatever the fields hold. */
  lemma AckEndsWithNul(m: Message)
    ensures |GetMessageResponse(m)| > 0 && GetMessageResponse(m)[|GetMessageResponse(m)| - 1] == '\0'
  {
    assert AckTemplate[|AckTemplate| - 1] == Lit(AckTail);
    RenderFromEndsWith(AckTemplate, 0, '\0');
    var d0 := Render(AckTemplate);
    ReplaceKeepsNul(d0, Eid, TextOr(m.extId));
    var d1 := Replace(d0, PlaceholderOf(Eid), TextOr(m.extId));
    ReplaceKeepsNul(d1, FromExt, TextOr(m.fromExt));
    var d2 := Replace(d1, PlaceholderOf(FromExt), TextOr(m.fromExt));
    ReplaceKeepsNul(d2, FromName, TextOr(m.fromName));
    var d3 := Replace(d2, PlaceholderOf(FromName), TextOr(m.fromName));
    ReplaceKeepsNul(d3, FromLoc, TextOr(m.fromLoc));
    var d4 := Replace(d3, PlaceholderOf(FromLoc), TextOr(m.fromLoc));
    ReplaceKeepsNul(d4, ToExt, TextOr(m.toExt));
    var d5 := Replace(d4, PlaceholderOf(ToExt), TextOr(m.toExt));
    ReplaceKeepsNul(d5, Dt, TextOr(m.sysdataDatetime));
    var d6 := Replace(d5, PlaceholderOf(Dt), TextOr(m.sysdataDatetime));
    ReplaceKeepsNul(d6, Ts, TextOr(m.sysdataTs));
  }

  /** The forwarded request ends in NUL too, whatever the fields hold. */
  lemma RequestEndsWithNul(m: Message)
    ensures |GetMessage(m)| > 0 && GetMessage(m)[|GetMessage(m)| - 1] == '\0'
  {
    assert RequestTemplate[|RequestTemplate| - 1] == Lit(ReqTail);
    RenderFromEndsWith(RequestTemplate, 0, '\0');
    var d0 := Render(RequestTemplate);
    ReplaceKeepsNul(d0, Eid, InternalIdText(m));
    var d1 := Replace(d0, PlaceholderOf(Eid), InternalIdText(m));
    ReplaceKeepsNul(d1, FromExt, TextOr(m.fromExt));
    var d2 := Replace(d1, PlaceholderOf(FromExt), TextOr(m.fromExt));
    ReplaceKeepsNul(d2, FromName, TextOr(m.fromName));
    var d3 := Replace(d2, PlaceholderOf(FromName), TextOr(m.fromName));
    ReplaceKeepsNul(d3, FromLoc, TextOr(m.fromLoc));
    var d4 := Replace(d3, PlaceholderOf(FromLoc), TextOr(m.fromLoc));
    ReplaceKeepsNul(d4, ToExt, TextOr(m.toExt));
    var d5 := Replace(d4, PlaceholderOf(ToExt), TextOr(m.toExt));
    ReplaceKeepsNul(d5, Dt, TextOr(m.sysdataDatetime));
    var d6 := Replace(d5, PlaceholderOf(Dt), TextOr(m.sysdataDatetime));
    ReplaceKeepsNul(d6, Ts, TextOr(m.sysdataTs));
    var d7 := Replace(d6, PlaceholderOf(Ts), TextOr(m.sysdataTs));
    ReplaceKeepsNul(d7, Msg, TextOr(m.message));
  }

  /** `get_messageresponse` as written (messagesystem.py:79-85): `str.replace` with a None
      replacement raises TypeError, so any field without text makes the encoder raise (None). */
  function GetMessageResponseAsWritten(m: Message): (r: Option<string>)
    ensures r.None? <==> (m.extId.None? || m.fromExt.None? || m.fromName.None? || m.fromLoc.None?
                          || m.toExt.None? || m.sysdataDatetime.None? || m.sysdataTs.None?)
  {
    if m.extId.None? || m.fromExt.None? || m.fromName.None? || m.fromLoc.None? || m.toExt.None?
       || m.sysdataDatetime.None? || m.sysdataTs.None?
    then None
    else
      var doc := Render(AckTemplate);
      var doc := Replace(doc, PlaceholderOf(Eid), m.extId.value);
      var doc := Replace(doc, PlaceholderOf(FromExt), m.fromExt.value);
      var doc := Replace(doc, PlaceholderOf(FromName), m.fromName.value);
      var doc := Replace(doc, PlaceholderOf(FromLoc), m.fromLoc.value);
      var doc := Replace(doc, PlaceholderOf(ToExt), m.toExt.value);
      var doc := Replace(doc, PlaceholderOf(Dt), m.sysdataDatetime.value);
      Some(Replace(doc, PlaceholderOf(Ts), m.sysdataTs.value))
  }

  /** `get_message` as written (messagesystem.py:127-134): raises when any field it fills in,
      the message body included, has no text. */
  function GetMessageAsWritten(m: Message): (r: Option<string>)
    ensures r.None? <==> (m.message.None? || m.fromExt.None? || m.fromName.None? || m.fromLoc.None?
                          || m.toExt.None? || m.sysdataDatetime.None? || m.sysdataTs.None?)
  {
    if m.message.None? || m.fromExt.None? || m.fromName.None? || m.fromLoc.None? || m.toExt.None?
       || m.sysdataDatetime.None? || m.sysdataTs.None?
    then None
    else
      var doc := Render(RequestTemplate);
      var doc := Replace(doc, PlaceholderOf(Eid), InternalIdText(m));
      var doc := Replace(doc, PlaceholderOf(FromExt), m.fromExt.value);
      var doc := Replace(doc, PlaceholderOf(FromName), m.fromName.value);
      var doc := Replace(doc, PlaceholderOf(FromLoc), m.fromLoc.value);
      var doc := Replace(doc, PlaceholderOf(ToExt), m.toExt.value);
      var doc := Replace(doc, PlaceholderOf(Dt), m.sysdataDatetime.value);
      var doc := Replace(doc, PlaceholderOf(Ts), m.sysdataTs.value);
      Some(Replace(doc, PlaceholderOf(Msg), m.message.value))
  }

  /** Where every field has text the encoders as written and as modelled produce the same
      documents; a message whose body element is empty is acknowledged, but forwarding it raises. */
  lemma EmptyTextFinding(m: Message)
    ensures m.extId.Some? && m.fromExt.Some? && m.fromName.Some? && m.fromLoc.Some? && m.toExt.Some?
            && m.sysdataDatetime.Some? && m.sysdataTs.Some?
            ==> GetMessageResponseAsWritten(m) == Some(GetMessageResponse(m))
    ensures m.message.Some? && m.fromExt.Some? && m.fromName.Some? && m.fromLoc.Some? && m.toExt.Some?
            && m.sysdataDatetime.Some? && m.sysdataTs.Some?
            ==> GetMessageAsWritten(m) == Some(GetMessage(m))
    ensures m.message.None? ==> GetMessageAsWritten(m).None?
  {
  }

  // ---------------------------------------------------------------------------------------------
  // Shape of the documents

  // Z3 checks a string literal for a `{` one character at a time, and the cost grows with the
  // number of literals in one proof; so each skeleton constant gets a lemma of its own.

  lemma XmlDeclarationPlain()
    ensures NoOpenBrace(XmlDeclaration)
  {
  }

  lemma SystemDataEndPlain()
    ensures NoOpenBrace(SystemDataEnd)
  {
  }

  lemma JobStartPlain()
    ensures NoOpenBrace(JobStart)
  {
  }

  lemma SystemAndJobStartPlain()
    ensures NoOpenBrace(SystemAndJobStart)
  {
    SystemDataEndPlain();
    JobStartPlain();
  }

  lemma RootAttributesPlain()
    ensures NoOpenBrace(RootAttributes)
  {
  }

  lemma AckHeadPlain()
    ensures NoOpenBrace(AckHead)
  {
    XmlDeclarationPlain();
    RootAttributesPlain();
  }

  lemma AckAfterEidPlain()
    ensures NoOpenBrace(AckAfterEid)
  {
  }

  lemma AckAfterDtPlain()
    ensures NoOpenBrace(AckAfterDt)
  {
  }

  lemma AckAfterTsPlain()
    ensures NoOpenBrace(AckAfterTs)
  {
    SystemAndJobStartPlain();
  }

  lemma AckAfterToPlain()
    ensures NoOpenBrace(AckAfterTo)
  {
  }

  lemma AckAfterFromExtPlain()
    ensures NoOpenBrace(AckAfterFromExt)
  {
  }

  lemma AckAfterFromNamePlain()
    ensures NoOpenBrace(AckAfterFromName)
  {
  }

  lemma AckTailPlain()
    ensures NoOpenBrace(AckTail)
  {
  }

  lemma ReqHeadPlain()
    ensures NoOpenBrace(ReqHead)
  {
    XmlDeclarationPlain();
    RootAttributesPlain();
  }

  lemma ReqAfterTsPlain()
    ensures NoOpenBrace(ReqAfterTs)
  {
    SystemAndJobStartPlain();
  }

  lemma ReqAfterMsgPlain()
    ensures NoOpenBrace(ReqAfterMsg)
  {
  }

  lemma ReqAfterFromLocPlain()
    ensures NoOpenBrace(ReqAfterFromLoc)
  {
  }

  lemma ReqTailPlain()
    ensures NoOpenBrace(ReqTail)
  {
  }

  lemma AckPiecesPlain()
    ensures NoOpenBrace(AckHead) && NoOpenBrace(AckAfterEid) && NoOpenBrace(AckAfterDt)
    ensures NoOpenBrace(AckAfterTs) && NoOpenBrace(AckAfterTo) && NoOpenBrace(AckAfterFromExt)
    ensures NoOpenBrace(AckAfterFromName) && NoOpenBrace(AckTail)
  {
    AckHeadPlain(); AckAfterEidPlain(); AckAfterDtPlain(); AckAfterTsPlain();
    AckAfterToPlain(); AckAfterFromExtPlain(); AckAfterFromNamePlain(); AckTailPlain();
  }

  lemma RequestPiecesPlain()
    ensures NoOpenBrace(ReqHead) && NoOpenBrace(ReqAfterTs) && NoOpenBrace(ReqAfterMsg)
    ensures NoOpenBrace(ReqAfterFromLoc) && NoOpenBrace(ReqTail)
  {
    ReqHeadPlain(); ReqAfterTsPlain(); ReqAfterMsgPlain(); ReqAfterFromLocPlain(); ReqTailPlain();
  }

  /** No literal piece of the skeletons holds a `{`. */
  lemma AckTemplateWellFormed()
    ensures WellFormed(AckTemplate)
  {
    AckPiecesPlain();
  }

  lemma RequestTemplateWellFormed()
    ensures WellFormed(RequestTemplate)
  {
    AckPiecesPlain();
    RequestPiecesPlain();
  }

  /** What `get_messageresponse` puts in each placeholder: the inbound ids and times, the
      recipient of the original message as sender and the original sender as person. */
  function AckValues(m: Message): map<Field, string>
  {
    map[Eid := TextOr(m.extId), FromExt := TextOr(m.fromExt), FromName := TextOr(m.fromName),
        FromLoc := TextOr(m.fromLoc), ToExt := TextOr(m.toExt), Dt := TextOr(m.sysdataDatetime),
        Ts := TextOr(m.sysdataTs)]
  }

  /** What `get_message` puts in each placeholder: the internal id, the message fields and the body. */
  function RequestValues(m: Message): map<Field, string>
  {
    map[Eid := InternalIdText(m), FromExt := TextOr(m.fromExt), FromName := TextOr(m.fromName),
        FromLoc := TextOr(m.fromLoc), ToExt := TextOr(m.toExt), Dt := TextOr(m.sysdataDatetime),
        Ts := TextOr(m.sysdataTs), Msg := TextOr(m.message)]
  }

  /** No field of `m` that the acknowledgment carries can start a placeholder. */
  predicate AckFieldsPlain(m: Message)
  {
    && NoOpenBrace(TextOr(m.extId)) && NoOpenBrace(TextOr(m.sysdataDatetime))
    && NoOpenBrace(TextOr(m.sysdataTs)) && NoOpenBrace(TextOr(m.toExt))
    && NoOpenBrace(TextOr(m.fromExt)) && NoOpenBrace(TextOr(m.fromName))
    && NoOpenBrace(TextOr(m.fromLoc))
  }

  /** The sequential replacements of `get_messageresponse` fill the skeleton, provided no value can
      start a placeholder (a value holding `{{ts}}`, say, would be filled in turn). */
  lemma AckReplacements(m: Message)
    requires AckFieldsPlain(m)
    ensures GetMessageResponse(m) == Render(FillWith(AckTemplate, AckValues(m)))
  {
    AckTemplateWellFormed();
    AckChain(AckTemplate, TextOr(m.extId), TextOr(m.fromExt), TextOr(m.fromName), TextOr(m.fromLoc),
      TextOr(m.toExt), TextOr(m.sysdataDatetime), TextOr(m.sysdataTs));
  }

  /** The replacement chain of `get_messageresponse` on any skeleton without stray braces. */
  lemma AckChain(t: seq<Segment>, eid: string, fromExt: string, fromName: string, fromLoc: string,
                 toExt: string, dt: string, ts: string)
    requires WellFormed(t)
    requires NoOpenBrace(eid) && NoOpenBrace(fromExt) && NoOpenBrace(fromName)
    requires NoOpenBrace(fromLoc) && NoOpenBrace(toExt) && NoOpenBrace(dt) && NoOpenBrace(ts)
    ensures
      var d1 := Replace(Render(t), PlaceholderOf(Eid), eid);
      var d2 := Replace(d1, PlaceholderOf(FromExt), fromExt);
      var d3 := Replace(d2, PlaceholderOf(FromName), fromName);
      var d4 := Replace(d3, PlaceholderOf(FromLoc), fromLoc);
      var d5 := Replace(d4, PlaceholderOf(ToExt), toExt);
      var d6 := Replace(d5, PlaceholderOf(Dt), dt);
      Replace(d6, PlaceholderOf(Ts), ts) == Render(FillWith(t, map[Eid := eid, FromExt := fromExt,
        FromName := fromName, FromLoc := fromLoc, ToExt := toExt, Dt := dt, Ts := ts]))
  {
    FillWithNothing(t);
    var v0: map<Field, string> := map[];
    ReplaceThree(t, v0, Eid, eid, FromExt, fromExt, FromName, fromName);
    var v3 := v0[Eid := eid][FromExt := fromExt][FromName := fromName];
    ReplaceFour(t, v3, FromLoc, fromLoc, ToExt, toExt, Dt, dt, Ts, ts);
  }

  /** Every placeholder of the acknowledgment skeleton is filled with the value of its field. */
  lemma AckFilledPieces(lit: seq<string>, vals: map<Field, string>)
    requires |lit| == 8
    requires Eid in vals && Dt in vals && Ts in vals && ToExt in vals && FromExt in vals
    requires FromName in vals && FromLoc in vals
    ensures var f := FillWith(AckSkeleton(lit), vals);
      && |f| == 15
      && f[0] == Lit(lit[0]) && f[1] == Lit(vals[Eid]) && f[2] == Lit(lit[1])
      && f[3] == Lit(vals[Dt]) && f[4] == Lit(lit[2]) && f[5] == Lit(vals[Ts])
      && f[6] == Lit(lit[3]) && f[7] == Lit(vals[ToExt]) && f[8] == Lit(lit[4])
      && f[9] == Lit(vals[FromExt]) && f[10] == Lit(lit[5]) && f[11] == Lit(vals[FromName])
      && f[12] == Lit(lit[6]) && f[13] == Lit(vals[FromLoc]) && f[14] == Lit(lit[7])
  {
    var t := AckSkeleton(lit);
    assert forall k | 0 <= k < 8 :: t[2 * k] == Lit(lit[k]);
    assert t[1] == Hole(Eid) && t[3] == Hole(Dt) && t[5] == Hole(Ts) && t[7] == Hole(ToExt);
    assert t[9] == Hole(FromExt) && t[11] == Hole(FromName) && t[13] == Hole(FromLoc);
  }

  /** A skeleton of 15 literal pieces renders as their concatenation. */
  lemma RenderFifteen(f: seq<Segment>)
    requires |f| == 15 && forall i | 0 <= i < 15 :: f[i].Lit?
    ensures Render(f) ==
      f[0].text + f[1].text + f[2].text + f[3].text + f[4].text + f[5].text + f[6].text
      + f[7].text + f[8].text + f[9].text + f[10].text + f[11].text + f[12].text + f[13].text
      + f[14].text
  {
    RenderSplit(f, 15);
    assert RenderFrom(f, 15) == "";
    RenderFirstFive(f);
    RenderFive(f, 5);
    RenderFive(f, 10);
  }

  lemma AckRender(lit: seq<string>, vals: map<Field, string>)
    requires |lit| == 8
    requires Eid in vals && Dt in vals && Ts in vals && ToExt in vals && FromExt in vals
    requires FromName in vals && FromLoc in vals
    ensures Render(FillWith(AckSkeleton(lit), vals)) ==
      lit[0] + vals[Eid] + lit[1] + vals[Dt] + lit[2] + vals[Ts] + lit[3] + vals[ToExt] + lit[4]
      + vals[FromExt] + lit[5] + vals[FromName] + lit[6] + vals[FromLoc] + lit[7]
  {
    AckFilledPieces(lit, vals);
    RenderFifteen(FillWith(AckSkeleton(lit), vals));
  }

  /** The acknowledgment echoes the inbound `externalid`, `datetime` and `timestamp`, names the
      recipient of the original message as sender (senderdata/address), the original sender as
      person (address, name, location), and has an empty body. */
  lemma AckShape(m: Message)
    requires AckFieldsPlain(m)
    ensures GetMessageResponse(m) ==
      AckHead + TextOr(m.extId) + AckAfterEid + TextOr(m.sysdataDatetime) + AckAfterDt
      + TextOr(m.sysdataTs) + AckAfterTs + TextOr(m.toExt) + AckAfterTo + TextOr(m.fromExt)
      + AckAfterFromExt + TextOr(m.fromName) + AckAfterFromName + TextOr(m.fromLoc) + AckTail
  {
    AckReplacements(m);
    AckRender(AckTexts, AckValues(m));
  }


  /** No field of `m` that the forwarded request carries can start a placeholder. */
  predicate RequestFieldsPlain(m: Message)
  {
    && NoOpenBrace(TextOr(m.message)) && NoOpenBrace(TextOr(m.sysdataDatetime))
    && NoOpenBrace(TextOr(m.sysdataTs)) && NoOpenBrace(TextOr(m.toExt))
    && NoOpenBrace(TextOr(m.fromExt)) && NoOpenBrace(TextOr(m.fromName))
    && NoOpenBrace(TextOr(m.fromLoc))
  }

  /** The internal id is ten decimal digits, so it cannot start a placeholder. */
  lemma InternalIdTextDigits(m: Message)
    ensures |InternalIdText(m)| == 10 && AllDigits(InternalIdText(m))
    ensures NoOpenBrace(InternalIdText(m))
    ensures ParseInt(Some(InternalIdText(m))) == Some(m.internalExtId)
  {
    assert Pow10(10) == 10000000000;
    TenDigitRoundTrip(m.internalExtId);
    assert forall i | 0 <= i < 10 :: IsDigit(InternalIdText(m)[i]);
  }

  lemma RequestReplacements(m: Message)
    requires RequestFieldsPlain(m)
    ensures GetMessage(m) == Render(FillWith(RequestTemplate, RequestValues(m)))
  {
    RequestTemplateWellFormed();
    InternalIdTextDigits(m);
    RequestChain(RequestTemplate, InternalIdText(m), TextOr(m.fromExt), TextOr(m.fromName),
      TextOr(m.fromLoc), TextOr(m.toExt), TextOr(m.sysdataDatetime), TextOr(m.sysdataTs),
      TextOr(m.message));
  }

  /** The replacement chain of `get_message` on any skeleton without stray braces. */
  lemma RequestChain(t: seq<Segment>, eid: string, fromExt: string, fromName: string,
                     fromLoc: string, toExt: string, dt: string, ts: string, msg: string)
    requires WellFormed(t)
    requires NoOpenBrace(eid) && NoOpenBrace(fromExt) && NoOpenBrace(fromName)
    requires NoOpenBrace(fromLoc) && NoOpenBrace(toExt) && NoOpenBrace(dt) && NoOpenBrace(ts)
    requires NoOpenBrace(msg)
    ensures
      var d1 := Replace(Render(t), PlaceholderOf(Eid), eid);
      var d2 := Replace(d1, PlaceholderOf(FromExt), fromExt);
      var d3 := Replace(d2, PlaceholderOf(FromName), fromName);
      var d4 := Replace(d3, PlaceholderOf(FromLoc), fromLoc);
      var d5 := Replace(d4, PlaceholderOf(ToExt), toExt);
      var d6 := Replace(d5, PlaceholderOf(Dt), dt);
      var d7 := Replace(d6, PlaceholderOf(Ts), ts);
      Replace(d7, PlaceholderOf(Msg), msg) == Render(FillWith(t, map[Eid := eid, FromExt := fromExt,
        FromName := fromName, FromLoc := fromLoc, ToExt := toExt, Dt := dt, Ts := ts, Msg := msg]))
  {
    AckChain(t, eid, fromExt, fromName, fromLoc, toExt, dt, ts);
    var v7 := map[Eid := eid, FromExt := fromExt, FromName := fromName, FromLoc := fromLoc,
      ToExt := toExt, Dt := dt, Ts := ts];
    assert ValuesPlain(v7);
    ReplaceStep(t, v7, Msg, msg);
  }

  /** Filling the request skeleton keeps its literal text in place. */
  lemma RequestFilledLits(lit: seq<string>, vals: map<Field, string>)
    requires |lit| == 9
    ensures var f := FillWith(RequestSkeleton(lit), vals);
      |f| == 17 && forall k | 0 <= k < 9 :: f[2 * k] == Lit(lit[k])
  {
    var t := RequestSkeleton(lit);
    assert forall k | 0 <= k < 9 :: t[2 * k] == Lit(lit[k]);
  }

  /** Every placeholder of the request skeleton is filled with the value of its field. */
  lemma RequestFilledPieces(lit: seq<string>, vals: map<Field, string>)
    requires |lit| == 9
    requires Eid in vals && Dt in vals && Ts in vals && Msg in vals && FromExt in vals
    requires FromName in vals && FromLoc in vals && ToExt in vals
    ensures var f := FillWith(RequestSkeleton(lit), vals);
      && |f| == 17
      && f[1] == Lit(vals[Eid]) && f[3] == Lit(vals[Dt]) && f[5] == Lit(vals[Ts])
      && f[7] == Lit(vals[Msg]) && f[9] == Lit(vals[FromExt]) && f[11] == Lit(vals[FromName])
      && f[13] == Lit(vals[FromLoc]) && f[15] == Lit(vals[ToExt])
  {
    var t := RequestSkeleton(lit);
    assert t[1] == Hole(Eid) && t[3] == Hole(Dt) && t[5] == Hole(Ts) && t[7] == Hole(Msg);
    assert t[9] == Hole(FromExt) && t[11] == Hole(FromName) && t[13] == Hole(FromLoc);
    assert t[15] == Hole(ToExt);
  }

  /** A skeleton of 17 literal pieces renders as their concatenation. */
  lemma RenderSeventeen(f: seq<Segment>)
    requires |f| == 17 && forall i | 0 <= i < 17 :: f[i].Lit?
    ensures Render(f) ==
      f[0].text + f[1].text + f[2].text + f[3].text + f[4].text + f[5].text + f[6].text
      + f[7].text + f[8].text + f[9].text + f[10].text + f[11].text + f[12].text + f[13].text
      + f[14].text + f[15].text + f[16].text
  {
    RenderSplit(f, 17);
    assert RenderFrom(f, 17) == "";
    RenderFirstFive(f);
    RenderFive(f, 5);
    RenderFive(f, 10);
    RenderTwo(f, 15);
  }

  lemma RequestRender(lit: seq<string>, vals: map<Field, string>)
    requires |lit| == 9
    requires Eid in vals && Dt in vals && Ts in vals && Msg in vals && FromExt in vals
    requires FromName in vals && FromLoc in vals && ToExt in vals
    ensures Render(FillWith(RequestSkeleton(lit), vals)) ==
      lit[0] + vals[Eid] + lit[1] + vals[Dt] + lit[2] + vals[Ts] + lit[3] + vals[Msg] + lit[4]
      + vals[FromExt] + lit[5] + vals[FromName] + lit[6] + vals[FromLoc] + lit[7] + vals[ToExt]
      + lit[8]
  {
    RequestFilledLits(lit, vals);
    RequestFilledPieces(lit, vals);
    RenderSeventeen(FillWith(RequestSkeleton(lit), vals));
  }

  /** The forwarded request carries the internal id, zero-padded to ten digits, as `externalid`,
      the inbound `datetime` and `timestamp`, the body, the original sender as sender and the
      original recipient as person: the inbound job rebuilt under a new id. */
  lemma RequestShape(m: Message)
    requires RequestFieldsPlain(m)
    ensures GetMessage(m) ==
      ReqHead + InternalIdText(m) + AckAfterEid + TextOr(m.sysdataDatetime) + AckAfterDt
      + TextOr(m.sysdataTs) + ReqAfterTs + TextOr(m.message) + ReqAfterMsg + TextOr(m.fromExt)
      + AckAfterFromExt + TextOr(m.fromName) + AckAfterFromName + TextOr(m.fromLoc)
      + ReqAfterFromLoc + TextOr(m.toExt) + ReqTail
  {
    RequestReplacements(m);
    RequestRender(RequestTexts, RequestValues(m));
  }
}
