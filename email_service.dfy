/**
 * The demo-submission notifications (src/services/email.service.js): fixed
 * subjects and HTML templates around the artist's name, handed to the mail
 * transport. The transport itself (SMTP) is an oracle.
 */
module EmailService {
  import opened Wrappers
  import opened Store
  import Text

  /** One message as given to the transport. */
  datatype Mail = Mail(from: string, to: string, subject: string, html: string)

  /** Sending: resolves with the provider's message id, or throws. */
  type Transport = Mail -> Call<string>

  /** `${v}` in a template literal: an undefined value prints as "undefined". */
  function Interpolate(v: Option<string>): (s: string)
    ensures v.Some? ==> s == v.value
  {
    if v.Some? then v.value else "undefined"
  }

  /** The From header, built from the EMAIL_USER setting. */
  function Sender(emailUser: Option<string>): (from: string)
    ensures emailUser.Some? ==> from == "\"Recursive Recordings\" <" + emailUser.value + ">"
    ensures emailUser.None? ==> from == "\"Recursive Recordings\" <undefined>"
  {
    "\"Recursive Recordings\" <" + Interpolate(emailUser) + ">"
  }

  /** sendEmail: the recipient, subject and body reach the transport as given; a failure is rethrown. */
  function SendEmail(emailUser: Option<string>, transport: Transport, to: string, subject: string, html: string)
    : (r: Call<string>)
    ensures r == transport(Mail(Sender(emailUser), to, subject, html))
    ensures r.Threw? <==> transport(Mail(Sender(emailUser), to, subject, html)).Threw?
  {
    match transport(Mail(Sender(emailUser), to, subject, html))
    case Threw(message) => Threw(message)
    case Returned(id) => Returned(id)
  }

  const RejectionSubject := "Update on your demo submission to Recursive Recordings"

  /** Both fixed templates up to the artist's name. */
  const BodyOpening := "\n    <p>Hi "

  /** The rejection template after the artist's name. */
  const RejectionClosing :=
    ",</p>\n"
    + "    <p>Thank you for sending us your demo. We appreciate the time and effort you put into your music.</p>\n"
    + "    <p>After careful consideration, we have decided not to move forward with this specific release. "
    + "Please understand that this is not a reflection on your talent, but rather a decision based on our "
    + "current schedule and curatorial direction.</p>\n"
    + "    <p>We wish you the best of luck with your music and encourage you to submit again in the future.</p>\n"
    + "    <p>Best regards,<br/>Recursive Recordings Team</p>\n"
    + "  "

  /** The rejection body: the name is its only variable part, inside a fixed opening and closing. */
  function RejectionHtml(artistName: string): (html: string)
    ensures |html| == |BodyOpening| + |artistName| + |RejectionClosing|
    ensures html[..|BodyOpening|] == BodyOpening
    ensures html[|BodyOpening| + |artistName|..] == RejectionClosing
  {
    BodyOpening + artistName + RejectionClosing
  }

  /** The part of a rejection body between the fixed opening and closing. */
  function RejectionNameOf(html: string): string
    requires |html| >= |BodyOpening| + |RejectionClosing|
  {
    html[|BodyOpening|..|html| - |RejectionClosing|]
  }

  /** The artist name is the only variable part of the rejection body: it can be read back. */
  lemma RejectionNameRecovered(artistName: string)
    ensures |RejectionHtml(artistName)| == |BodyOpening| + |artistName| + |RejectionClosing|
    ensures RejectionNameOf(RejectionHtml(artistName)) == artistName
  {
    var html := RejectionHtml(artistName);
    assert html[|BodyOpening|..|html| - |RejectionClosing|] == artistName;
  }

  /** So different names always give different rejection bodies. */
  lemma RejectionHtmlInjective(a: string, b: string)
    requires RejectionHtml(a) == RejectionHtml(b)
    ensures a == b
  {
    RejectionNameRecovered(a);
    RejectionNameRecovered(b);
  }

  function SendRejectionEmail(emailUser: Option<string>, transport: Transport, to: string, artistName: string)
    : (r: Call<string>)
    ensures r == transport(Mail(Sender(emailUser), to, RejectionSubject, RejectionHtml(artistName)))
  {
    SendEmail(emailUser, transport, to, RejectionSubject, RejectionHtml(artistName))
  }

  const AcceptanceSubject := "Great news regarding your demo submission!"

  /** The default acceptance template after the artist's name. */
  const AcceptanceClosing :=
    ",</p>\n"
    + "    <p>We've listened to your demo and we really like what we hear!</p>\n"
    + "    <p>We would love to discuss a potential release with you. "
    + "Please reply to this email so we can take the next steps.</p>\n"
    + "    <p>Cheers,<br/>Recursive Recordings Team</p>\n"
    + "  "

  /** The default acceptance body: like the rejection, only the name varies. */
  function DefaultAcceptanceHtml(artistName: string): (html: string)
    ensures |html| == |BodyOpening| + |artistName| + |AcceptanceClosing|
    ensures html[..|BodyOpening|] == BodyOpening
    ensures html[|BodyOpening| + |artistName|..] == AcceptanceClosing
  {
    BodyOpening + artistName + AcceptanceClosing
  }

  /** A custom acceptance body up to the artist's name. */
  const GreetingOpening := "<p>Hi "

  /** The greeting that opens a custom acceptance body. */
  function Greeting(artistName: string): string
  {
    GreetingOpening + artistName + ",</p>"
  }

  /** The sign-off that closes a custom acceptance body. */
  const SignOff := "<p>Best,<br/>Recursive Team</p>"

  /** A truthy custom message replaces the default template but keeps a greeting and a sign-off around it. */
  function AcceptanceHtml(artistName: string, customMessage: Option<string>): (html: string)
    ensures html == DefaultAcceptanceHtml(artistName) <==> customMessage.None? || customMessage.value == ""
  {
    if customMessage.Some? && customMessage.value != "" then
      var custom := Greeting(artistName) + customMessage.value + SignOff;
      assert custom[0] == '<' && DefaultAcceptanceHtml(artistName)[0] == '\n';
      custom
    else DefaultAcceptanceHtml(artistName)
  }

  /** The part of a custom acceptance body between greeting and sign-off. */
  function CustomMessageOf(html: string, artistName: string): string
    requires |html| >= |Greeting(artistName)| + |SignOff|
  {
    html[|Greeting(artistName)|..|html| - |SignOff|]
  }

  /** A non-empty custom message is embedded verbatim between the greeting and the sign-off. */
  lemma CustomMessageVerbatim(artistName: string, message: string)
    requires message != ""
    ensures AcceptanceHtml(artistName, Some(message)) == Greeting(artistName) + message + SignOff
    ensures CustomMessageOf(AcceptanceHtml(artistName, Some(message)), artistName) == message
  {
    var html := AcceptanceHtml(artistName, Some(message));
    assert html[|Greeting(artistName)|..|html| - |SignOff|] == message;
  }

  /** An absent or empty custom message gives the default template. */
  lemma DefaultWithoutMessage(artistName: string, customMessage: Option<string>)
    requires customMessage.None? || customMessage.value == ""
    ensures AcceptanceHtml(artistName, customMessage) == DefaultAcceptanceHtml(artistName)
  {
  }

  /** A custom body never coincides with a default one: the default starts with a line break. */
  lemma CustomDiffersFromDefault(artistName: string, message: string, other: string)
    requires message != ""
    ensures AcceptanceHtml(artistName, Some(message)) != DefaultAcceptanceHtml(other)
  {
    assert AcceptanceHtml(artistName, Some(message))[0] == '<';
    assert DefaultAcceptanceHtml(other)[0] == '\n';
  }

  /** The artist name is inserted as it is, without HTML escaping, in every template. */
  lemma NameInsertedUnescaped(artistName: string, customMessage: Option<string>)
    ensures Text.ContainsAt(RejectionHtml(artistName), artistName, |BodyOpening|)
    ensures Text.ContainsAt(DefaultAcceptanceHtml(artistName), artistName, |BodyOpening|)
    ensures customMessage.Some? && customMessage.value != "" ==>
      Text.ContainsAt(AcceptanceHtml(artistName, customMessage), artistName, |GreetingOpening|)
  {
    var r := RejectionHtml(artistName);
    assert r[|BodyOpening|..|BodyOpening| + |artistName|] == artistName;
    var d := DefaultAcceptanceHtml(artistName);
    assert d[|BodyOpening|..|BodyOpening| + |artistName|] == artistName;
    if customMessage.Some? && customMessage.value != "" {
      var a := AcceptanceHtml(artistName, customMessage);
      assert a[|GreetingOpening|..|GreetingOpening| + |artistName|] == artistName;
    }
  }

  function SendAcceptanceEmail(
    emailUser: Option<string>, transport: Transport, to: string, artistName: string, customMessage: Option<string>)
    : (r: Call<string>)
    ensures r == transport(Mail(Sender(emailUser), to, AcceptanceSubject, AcceptanceHtml(artistName, customMessage)))
  {
    SendEmail(emailUser, transport, to, AcceptanceSubject, AcceptanceHtml(artistName, customMessage))
  }

  /** Neither helper swallows a transport failure: the same error reaches the caller. */
  lemma TransportFailureRethrown(
    emailUser: Option<string>, transport: Transport, to: string, artistName: string, customMessage: Option<string>,
    message: string)
    requires transport(Mail(Sender(emailUser), to, RejectionSubject, RejectionHtml(artistName))) == Threw(message)
    requires transport(Mail(Sender(emailUser), to, AcceptanceSubject, AcceptanceHtml(artistName, customMessage)))
          == Threw(message)
    ensures SendRejectionEmail(emailUser, transport, to, artistName) == Threw(message)
    ensures SendAcceptanceEmail(emailUser, transport, to, artistName, customMessage) == Threw(message)
  {
  }
}
