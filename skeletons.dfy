/** The two document skeletons of messagesystem.py, the acknowledgment (lines 47-78) and the
    forwarded request (lines 97-126), as literal text between `{{name}}` placeholders. */
module Skeletons {
  import opened Codec


  const XmlDeclaration: string := "<?xml version=\"1.0\" encoding=\"UTF-8\"?>\n"

  /** From the end of the timestamp to the end of the system data. */
  const SystemDataEnd: string :=
    "</timestamp>\n<status>1</status>\n"
    + "<statusinfo>System running</statusinfo>\n"
    + "</systemdata>\n"

  /** From the start of the job data to the second (empty) message line. */
  const JobStart: string :=
    "<jobdata>\n"
    + "<priority>0</priority>\n<messages>\n"
    + "<message1></message1>\n"
    + "<message2></message2>\n"

  /** From the end of the timestamp to the second message line; both documents share it. */
  const SystemAndJobStart: string := SystemDataEnd + JobStart

  /** The root element's attributes, the same in both documents. */
  const RootAttributes: string := "version=\"19.11.12.1403\" type=\"job\">\n"

  const AckHead: string := XmlDeclaration + "<response " + RootAttributes + "<externalid>"
  const AckAfterEid: string :=
    "</externalid>\n<systemdata>\n"
    + "<name>server</name>\n<datetime>"
  const AckAfterDt: string := "</datetime>\n<timestamp>"
  /** Closes the system data, carries an empty message body and opens the sender's address. */
  const AckAfterTs: string :=
    SystemAndJobStart
    + "<messageuui></messageuui>\n"
    + "</messages>\n<status>1</status>\n"
    + "<statusinfo></statusinfo>\n"
    + "</jobdata>\n<senderdata>\n<address>"
  /** Closes the sender and opens the person's address. */
  const AckAfterTo: string :=
    "</address>\n<name>name</name>\n"
    + "<location>server</location>\n"
    + "</senderdata>\n<persondata>\n<address>"
  const AckAfterFromExt: string := "</address>\n<name>"
  const AckAfterFromName: string := "</name>\n<location>"
  const AckTail: string :=
    "</location>\n</persondata>\n"
    + "</response>\n\0"

  /** The skeleton of `get_messageresponse`: its placeholders, in document order, between eight
      literal pieces. */
  function AckSkeleton(lit: seq<string>): seq<Segment>
    requires |lit| == 8
  {
    [Lit(lit[0]), Hole(Eid), Lit(lit[1]), Hole(Dt), Lit(lit[2]), Hole(Ts),
     Lit(lit[3]), Hole(ToExt), Lit(lit[4]), Hole(FromExt), Lit(lit[5]),
     Hole(FromName), Lit(lit[6]), Hole(FromLoc), Lit(lit[7])]
  }

  const AckTexts: seq<string> := [
    AckHead, AckAfterEid, AckAfterDt, AckAfterTs, AckAfterTo, AckAfterFromExt, AckAfterFromName, AckTail]

  const AckTemplate: seq<Segment> := AckSkeleton(AckTexts)

  const ReqHead: string := XmlDeclaration + "<request " + RootAttributes + "<externalid>"
  /** Closes the system data and opens the message body. */
  const ReqAfterTs: string := SystemAndJobStart + "<messageuui>"
  /** Closes the body and opens the sender's address. */
  const ReqAfterMsg: string :=
    "</messageuui>\n</messages>\n"
    + "<status>0</status>\n"
    + "<statusinfo></statusinfo>\n"
    + "</jobdata>\n<senderdata>\n<address>"
  /** Closes the sender and opens the recipient's address. */
  const ReqAfterFromLoc: string :=
    "</location>\n</senderdata>\n"
    + "<persondata>\n<address>"
  const ReqTail: string :=
    "</address>\n</persondata>\n"
    + "</request>\n\0"

  /** The skeleton of `get_message`. */
  function RequestSkeleton(lit: seq<string>): seq<Segment>
    requires |lit| == 9
  {
    [Lit(lit[0]), Hole(Eid), Lit(lit[1]), Hole(Dt), Lit(lit[2]), Hole(Ts),
     Lit(lit[3]), Hole(Msg), Lit(lit[4]), Hole(FromExt), Lit(lit[5]),
     Hole(FromName), Lit(lit[6]), Hole(FromLoc), Lit(lit[7]),
     Hole(ToExt), Lit(lit[8])]
  }

  const RequestTexts: seq<string> := [
    ReqHead, AckAfterEid, AckAfterDt, ReqAfterTs, ReqAfterMsg, AckAfterFromExt, AckAfterFromName,
    ReqAfterFromLoc, ReqTail]

  const RequestTemplate: seq<Segment> := RequestSkeleton(RequestTexts)
}
