/** The reply each message handler sends: fixed texts for the commands, the
    uptime report for `/status`, and the echo of any other text message.
    Only the choice of text (and of Markdown parsing) is modelled; the send
    itself is the messaging library's. */
module Replies {
  import opened Text
  import opened Uptime

  /** What the bot was sent: one of its six commands, or free text. */
  datatype Command =
    | Start
    | Help
    | Delima
    | Ains
    | ResetPassword
    | Status
    | Message(text: string)

  /** Whether the reply is sent with `parse_mode="Markdown"`. */
  datatype ParseMode = Plain | Markdown

  datatype Reply = Reply(text: string, mode: ParseMode)

  /** The word after the slash that selects each command's handler. */
  function CommandName(c: Command): string
    requires !c.Message?
  {
    match c
    case Start => "start"
    case Help => "help"
    case Delima => "delima"
    case Ains => "ains"
    case ResetPassword => "resetpassword"
    case Status => "status"
  }

  // ---------------------------------------------------------------- fixed texts

  const WelcomeText: string :=
    "\U{1F44B} Selamat datang ke sistem bantuan *DELIMa KPM*.\n\n"
    + "Sila isi *nama penuh murid* dan hantar.\n"
    + "\U{26A0}\U{FE0F} Pastikan tiada kesalahan ejaan pada nama."

  /** One line of the command list: the command and what it does. */
  function HelpLine(entry: (string, string)): string {
    "/" + entry.0 + " - " + entry.1
  }

  /** The lines of the command list, one per entry, separated by newlines. */
  function HelpLines(entries: seq<(string, string)>): string
    requires |entries| > 0
  {
    if |entries| == 1 then HelpLine(entries[0])
    else HelpLine(entries[0]) + "\n" + HelpLines(entries[1..])
  }

  /** The commands `/help` lists, in its order, with their descriptions. */
  const HelpEntries: seq<(string, string)> := [
    ("start", "Mula semula bot"),
    ("help", "Bantuan"),
    ("delima", "Pautan ke portal DELIMa"),
    ("ains", "Pautan ke AINS"),
    ("resetpassword", "Panduan reset kata laluan"),
    ("status", "Status server")
  ]

  const HelpHeader: string := "\U{1F4CC} Senarai arahan:\n"

  const HelpText: string := HelpHeader + HelpLines(HelpEntries)

  const DelimaText: string := "\U{1F310} Sila layari portal DELIMa KPM: https://idp1.moe.gov.my"

  const AinsText: string :=
    "\U{1F4DD} AINS (Advanced Integrated NILAM System): https://ains.moe.gov.my/login?returnUrl=/"

  const ResetPasswordText: string :=
    "\U{1F511} *Peringatan Reset Kata Laluan DELIMa KPM*\n\n"
    + "Untuk menetapkan semula kata laluan, sila hubungi *guru kelas anak anda* "
    + "untuk mendapatkan bantuan rasmi.\n\n"
    + "\U{1F4C2} Pihak sekolah menasihatkan agar ibu bapa / penjaga menyimpan kata laluan dengan baik "
    + "supaya tidak menghadapi masalah akses pada masa hadapan."

  // ---------------------------------------------------------------- status

  const StatusHeader: string := "\U{2705} Server aktif.\n\U{23F1} Uptime: "
  const DaysUnit: string := " hari, "
  const HoursUnit: string := " jam, "
  const MinutesUnit: string := " minit, "
  const SecondsUnit: string := " saat."

  /** The f-string of the `/status` reply filled with the four values of
      `t`, each rendered as Python renders an `int`. */
  function FormatStatus(t: Duration): string {
    StatusHeader
    + IntToString(t.days) + DaysUnit
    + IntToString(t.hours) + HoursUnit
    + IntToString(t.minutes) + MinutesUnit
    + IntToString(t.seconds) + SecondsUnit
  }

  /** The `/status` reply for `uptime` seconds: it lists the days, hours,
      minutes and seconds of the uptime split, in that order and each exactly
      as computed, so reading them back gives the split again. */
  function StatusText(uptime: int): (r: string)
    ensures ParseStatus(r) == Some(SplitUptime(uptime))
  {
    FormatStatusRoundTrip(SplitUptime(uptime));
    FormatStatus(SplitUptime(uptime))
  }

  /** Reads an integer followed by `unit` from the front of `s`. */
  function ReadField(s: string, unit: string): Option<(int, string)> {
    match ReadInt(s)
    case None => None
    case Some((n, rest)) =>
      match StripPrefix(rest, unit)
      case None => None
      case Some(rest') => Some((n, rest'))
  }

  /** Recovers the four values from a status reply, or None when the text
      is not one. */
  function ParseStatus(s: string): Option<Duration> {
    match StripPrefix(s, StatusHeader)
    case None => None
    case Some(s0) =>
      match ReadField(s0, DaysUnit)
      case None => None
      case Some((d, s1)) =>
        match ReadField(s1, HoursUnit)
        case None => None
        case Some((h, s2)) =>
          match ReadField(s2, MinutesUnit)
          case None => None
          case Some((m, s3)) =>
            match ReadField(s3, SecondsUnit)
            case None => None
            case Some((sec, s4)) =>
              if s4 == [] then Some(Duration(d, h, m, sec)) else None
  }

  lemma ReadFieldOf(n: int, unit: string, rest: string)
    requires |unit| > 0 && !IsDigit(unit[0])
    ensures ReadField(IntToString(n) + unit + rest, unit) == Some((n, rest))
  {
    ReadIntToString(n, unit + rest);
    assert IntToString(n) + unit + rest == IntToString(n) + (unit + rest);
    assert (unit + rest)[..|unit|] == unit;
  }

  /** The status format keeps its four values apart and in order: reading
      them back out of the text gives the values that were filled in, for
      any four integers. */
  lemma {:induction false} FormatStatusRoundTrip(t: Duration)
    ensures ParseStatus(FormatStatus(t)) == Some(t)
  {
    var s4: string := [];
    var s3 := IntToString(t.seconds) + SecondsUnit + s4;
    var s2 := IntToString(t.minutes) + MinutesUnit + s3;
    var s1 := IntToString(t.hours) + HoursUnit + s2;
    var s0 := IntToString(t.days) + DaysUnit + s1;
    assert FormatStatus(t) == StatusHeader + s0;
    assert (StatusHeader + s0)[..|StatusHeader|] == StatusHeader;
    assert StripPrefix(FormatStatus(t), StatusHeader) == Some(s0);
    ReadFieldOf(t.days, DaysUnit, s1);
    ReadFieldOf(t.hours, HoursUnit, s2);
    ReadFieldOf(t.minutes, MinutesUnit, s3);
    ReadFieldOf(t.seconds, SecondsUnit, s4);
    assert ReadField(s0, DaysUnit) == Some((t.days, s1));
    assert ReadField(s1, HoursUnit) == Some((t.hours, s2));
    assert ReadField(s2, MinutesUnit) == Some((t.minutes, s3));
    assert ReadField(s3, SecondsUnit) == Some((t.seconds, s4));
  }

  /** Two uptimes give the same status reply only when they are the same
      number of seconds. */
  lemma StatusTextInjective(u1: int, u2: int)
    ensures u1 != u2 ==> StatusText(u1) != StatusText(u2)
  {
    if StatusText(u1) == StatusText(u2) {
      assert ParseStatus(StatusText(u1)) == Some(SplitUptime(u1));
      assert ParseStatus(StatusText(u2)) == Some(SplitUptime(u2));
    }
  }

  // ---------------------------------------------------------------- echo

  const EchoLead: string := "\U{1F50D} Nama "
  const EchoTail: string := " diterima. Sila tunggu proses semakan (demo sahaja)."

  /** The name an echo reply quotes, or None when the text is not one. */
  function EchoedName(reply: string): Option<string> {
    match StripPrefix(reply, EchoLead + "'")
    case None => None
    case Some(rest) => StripSuffix(rest, "'" + EchoTail)
  }

  /** The catch-all reply: it holds the incoming text verbatim between single
      quotes, and that text can be read back out of it. */
  function EchoText(text: string): (r: string)
    ensures EchoedName(r) == Some(text)
    ensures Contains(r, "'" + text + "'")
  {
    var open, close := EchoLead + "'", "'" + EchoTail;
    var r := EchoLead + "'" + text + "'" + EchoTail;
    var rest := text + close;
    assert r == open + rest;
    assert r[..|open|] == open && r[|open|..] == rest;
    assert rest[|rest| - |close|..] == close && rest[..|rest| - |close|] == text;
    assert r == EchoLead + ("'" + text + "'") + EchoTail;
    ContainsMiddle(EchoLead, "'" + text + "'", EchoTail);
    r
  }

  // ---------------------------------------------------------------- dispatch

  /** The reply the handler for `c` sends, given the uptime in whole seconds
      at the moment `/status` is handled. */
  function Respond(c: Command, uptime: int): (r: Reply)
    ensures r.mode == Markdown <==> c.Start? || c.Help? || c.ResetPassword?
    ensures c.Status? ==> ParseStatus(r.text) == Some(SplitUptime(uptime))
    ensures c.Message? ==> EchoedName(r.text) == Some(c.text)
    ensures c.Help? ==> forall c': Command :: !c'.Message? ==> Contains(r.text, "/" + CommandName(c'))
  {
    match c
    case Start => Reply(WelcomeText, Markdown)
    case Help =>
      HelpListsEveryCommand();
      Reply(HelpText, Markdown)
    case Delima => Reply(DelimaText, Plain)
    case Ains => Reply(AinsText, Plain)
    case ResetPassword => Reply(ResetPasswordText, Markdown)
    case Status => Reply(StatusText(uptime), Plain)
    case Message(text) => Reply(EchoText(text), Plain)
  }

  /** The `/help` text names every command the bot has a handler for. */
  lemma HelpListsEveryCommand()
    ensures forall c: Command :: !c.Message? ==> Contains(HelpText, "/" + CommandName(c))
  {
    forall c: Command | !c.Message? ensures Contains(HelpText, "/" + CommandName(c)) {
      var k := match c
        case Start => 0 case Help => 1 case Delima => 2
        case Ains => 3 case ResetPassword => 4 case Status => 5;
      assert HelpEntries[k].0 == CommandName(c);
      HelpLinesMention(HelpEntries, k);
      ContainsAfter(HelpHeader, HelpLines(HelpEntries), "/" + CommandName(c));
    }
  }

  /** The command list mentions the command of each of its entries. */
  lemma {:induction false} HelpLinesMention(entries: seq<(string, string)>, k: nat)
    requires k < |entries|
    ensures Contains(HelpLines(entries), "/" + entries[k].0)
    decreases |entries|
  {
    var line := HelpLine(entries[0]);
    if |entries| == 1 || k == 0 {
      var after := if |entries| == 1 then [] else "\n" + HelpLines(entries[1..]);
      assert HelpLines(entries) == [] + ("/" + entries[0].0) + (" - " + entries[0].1 + after);
      ContainsMiddle([], "/" + entries[0].0, " - " + entries[0].1 + after);
    } else {
      HelpLinesMention(entries[1..], k - 1);
      ContainsAfter(line + "\n", HelpLines(entries[1..]), "/" + entries[k].0);
    }
  }
}
