/** The recent-server identity (`encode_recent_server` and `decode_recent_server` of `history.rs`). */
module RecentServers {
  import opened Text
  import opened Protocols
  import opened Utf8
  import opened PercentCoding

  datatype WebDavScheme = Http | Https

  /** The session options that the identity depends on or that decoding sets. */
  datatype Preset = Preset(
    protocol: Protocol, host: string, port: Port, username: string,
    webdavScheme: WebDavScheme, webdavVerifyPeer: bool, smbDomain: Option<string>,
    telnetTls: bool, telnetAutoLogin: bool)

  /** `str::to_lowercase`: idempotent, and no source of white space. */
  ghost predicate LawfulFold(fold: string -> string) {
    forall s :: LawfulAt(fold, s)
  }

  ghost predicate LawfulAt(fold: string -> string, s: string) {
    && fold(fold(s)) == fold(s)
    && (Trimmed(s) ==> Trimmed(fold(s)))
    && (fold(s) == "" <==> s == "")
  }

  // ---------------------------------------------------------------------------
  // Names and numbers
  // ---------------------------------------------------------------------------

  function StorageName(p: Protocol): (s: string) {
    match p
    case Sftp => "sftp"
    case Scp => "scp"
    case Ftp => "ftp"
    case Ftps => "ftps"
    case WebDav => "webdav"
    case Smb => "smb"
    case Telnet => "telnet"
  }

  function FromStorageName(raw: string): (p: Protocol) {
    if raw == "" then Sftp
    else if EqIgnoreCase(raw, "scp") then Scp
    else if EqIgnoreCase(raw, "ftp") then Ftp
    else if EqIgnoreCase(raw, "ftps") then Ftps
    else if EqIgnoreCase(raw, "webdav") then WebDav
    else if EqIgnoreCase(raw, "smb") then Smb
    else if EqIgnoreCase(raw, "telnet") then Telnet
    else Sftp
  }

  function SchemeName(w: WebDavScheme): (s: string) {
    if w == Http then "http" else "https"
  }

  function SchemeFromName(raw: string): (w: WebDavScheme) {
    if EqIgnoreCase(raw, "http") then Http else Https
  }

  function DefaultTelnetPort(tls: bool): (n: Port) {
    if tls then 992 else DefaultPort(Telnet)
  }

  lemma NamesRoundTrip(p: Protocol, w: WebDavScheme)
    ensures FromStorageName(StorageName(p)) == p && SchemeFromName(SchemeName(w)) == w
  {
    var s := StorageName(p);
    if |s| == 3 {
      assert AsciiLower(s[0]) == s[0] && AsciiLower(s[1]) == s[1];
    } else if |s| == 4 {
      assert AsciiLower(s[0]) == s[0];
    } else {
      assert AsciiLower(s[0]) == s[0];
    }
  }

  /** Protocol names are read in either case. */
  lemma NamesIgnoreCase(raw: string, other: string)
    requires EqIgnoreCase(raw, other)
    ensures FromStorageName(raw) == FromStorageName(other) && SchemeFromName(raw) == SchemeFromName(other)
  {
    SameCaseClass(raw, other);
  }

  lemma SameCaseClass(a: string, b: string)
    requires EqIgnoreCase(a, b)
    ensures forall name :: EqIgnoreCase(a, name) <==> EqIgnoreCase(b, name)
  {
  }

  /** The value of a string of digits. */
  function DigitsValue(s: string): (n: Option<nat>) {
    if s == "" then Some(0)
    else
      var init, c := DigitsValue(s[..|s| - 1]), s[|s| - 1];
      if init.None? || !('0' <= c <= '9') then None else Some(init.value * 10 + (c as int - '0' as int))
  }

  /** `parse::<u16>`: an optional plus sign, digits, and no overflow. */
  function ParsePort(s: string): (n: Option<Port>) {
    var digits := if s != "" && s[0] == '+' then s[1..] else s;
    if digits == "" then None
    else
      var v := DigitsValue(digits);
      if v.None? || v.value >= 65536 then None else Some(v.value)
  }

  lemma {:induction false} DecimalReads(n: nat)
    ensures DigitsValue(Decimal(n)) == Some(n)
    ensures Decimal(n) != "" && forall i :: 0 <= i < |Decimal(n)| ==> '0' <= Decimal(n)[i] <= '9'
  {
    if n < 10 {
      assert Decimal(n)[..0] == "";
    } else {
      DecimalReads(n / 10);
      assert Decimal(n)[..|Decimal(n)| - 1] == Decimal(n / 10);
    }
  }

  lemma PortReads(n: Port)
    ensures ParsePort(Trim(Decimal(n))) == Some(n)
  {
    DecimalReads(n);
    var s := Decimal(n);
    TrimmedExactlyWhenFixed(s);
  }

  // ---------------------------------------------------------------------------
  // Encoding
  // ---------------------------------------------------------------------------

  type Field = (string, string)

  /** The named values of a preset, in the order they are written. */
  function FieldsOf(fold: string -> string, o: Preset): (fs: seq<Field>) {
    Basics(fold, o) + Extras(o)
  }

  function Basics(fold: string -> string, o: Preset): (fs: seq<Field>) {
    [("protocol", StorageName(o.protocol)), ("host", fold(Trim(o.host))),
     ("port", Decimal(o.port)), ("user", Trim(o.username))]
  }

  function Extras(o: Preset): (fs: seq<Field>) {
    if o.protocol == WebDav then [("webdavScheme", SchemeName(o.webdavScheme))]
    else if o.protocol == Smb then
      if o.smbDomain.Some? && Trim(o.smbDomain.value) != "" then [("smbDomain", Trim(o.smbDomain.value))] else []
    else if o.protocol == Telnet then
      TelnetExtras(o.telnetTls, o.telnetAutoLogin)
    else []
  }

  function PairText(f: Field): (s: string) {
    f.0 + "=" + PercentEncode(f.1)
  }

  function EachText(text: Field -> string, fs: seq<Field>): (ss: seq<string>) {
    if fs == [] then [] else [text(fs[0])] + EachText(text, fs[1..])
  }

  function PairTexts(fs: seq<Field>): (ss: seq<string>) {
    EachText(PairText, fs)
  }

  function EncodeServer(fold: string -> string, o: Preset): (s: string) {
    if fold(Trim(o.host)) == "" then "" else Join("&", PairTexts(FieldsOf(fold, o)))
  }

  /** A name or number that percent-encoding leaves alone. */
  predicate Plain(s: string) {
    forall i :: 0 <= i < |s| ==> Unreserved(s[i] as int)
  }

  lemma {:induction false} PlainEncodes(s: string)
    requires Plain(s)
    ensures PercentEncode(s) == s
  {
    EncodedBytes(s);
    PlainBytes(s);
    EscapedIsAscii(Encode(s));
    DecodeEncode(s);
    AsciiEncodes(Encode(s));
    DecodeEncode(Chars(Encode(s)));
  }

  lemma {:induction false} PlainBytes(s: string)
    requires Plain(s) && AllBytes(Encode(s))
    ensures EscapeBytes(Encode(s)) == Encode(s) && Ascii(Encode(s))
  {
    if s != "" {
      assert Unreserved(s[0] as int);
      assert EncodeChar(s[0]) == [s[0] as int];
      var rest := Encode(s[1..]);
      assert Encode(s)[1..] == rest;
      assert AllBytes(rest) by { EncodedBytes(s[1..]); }
      PlainBytes(s[1..]);
      assert EscapeBytes(Encode(s)) == [s[0] as int] + EscapeBytes(rest);
    }
  }

  lemma DecimalIsPlain(n: nat)
    ensures Plain(Decimal(n))
  {
    DecimalReads(n);
  }

  method EncodeRecentServer(fold: string -> string, o: Preset) returns (s: string)
    ensures s == EncodeServer(fold, o)
  {
    var host := fold(Trim(o.host));
    if host == "" {
      return "";
    }
    DecimalIsPlain(o.port);
    var pairs := EncodeBasics(Basics(fold, o));
    var more := EncodeExtras(o);
    EachTextAppend(PairText, Basics(fold, o), Extras(o));
    s := Join("&", pairs + more);
  }

  method EncodeBasics(fs: seq<Field>) returns (pairs: seq<string>)
    requires |fs| == 4 && fs[2].0 == "port" && Plain(fs[2].1)
    ensures pairs == PairTexts(fs)
  {
    var protocol := PairText(fs[0]);
    var host := PairText(fs[1]);
    var port := PlainPair(fs[2]);
    var user := PairText(fs[3]);
    pairs := [protocol, host, port, user];
    assert fs == [fs[0], fs[1], fs[2], fs[3]];
    FourTexts(PairText, fs[0], fs[1], fs[2], fs[3]);
  }

  method PlainPair(f: Field) returns (s: string)
    requires Plain(f.1)
    ensures s == PairText(f)
  {
    PlainEncodes(f.1);
    s := f.0 + "=" + f.1;
  }

  method EncodeExtras(o: Preset) returns (pairs: seq<string>)
    ensures pairs == PairTexts(Extras(o))
  {
    pairs := [];
    if o.protocol == WebDav {
      OnePair(("webdavScheme", SchemeName(o.webdavScheme)));
      pairs := pairs + [PairText(("webdavScheme", SchemeName(o.webdavScheme)))];
    }
    if o.protocol == Smb {
      if o.smbDomain.Some? {
        var domain := Trim(o.smbDomain.value);
        if domain != "" {
          OnePair(("smbDomain", domain));
          pairs := pairs + [PairText(("smbDomain", domain))];
        }
      }
    }
    if o.protocol == Telnet {
      pairs := EncodeTelnet(o.telnetTls, o.telnetAutoLogin);
    }
  }

  function TelnetExtras(tls: bool, autoLogin: bool): (fs: seq<Field>) {
    (if tls then [("telnetTls", "1")] else []) + (if autoLogin then [] else [("telnetAutoLogin", "0")])
  }

  method EncodeTelnet(tls: bool, autoLogin: bool) returns (pairs: seq<string>)
    ensures pairs == PairTexts(TelnetExtras(tls, autoLogin))
  {
    var tlsPair, autoPair := ("telnetTls", "1"), ("telnetAutoLogin", "0");
    pairs := [];
    PlainEncodes("1");
    PlainEncodes("0");
    OnePair(tlsPair);
    OnePair(autoPair);
    if tls {
      pairs := pairs + ["telnetTls" + "=" + "1"];
    }
    if !autoLogin {
      pairs := pairs + ["telnetAutoLogin" + "=" + "0"];
    }
    EachTextAppend(PairText, if tls then [tlsPair] else [], if autoLogin then [] else [autoPair]);
  }

  lemma OneText(text: Field -> string, f: Field)
    ensures EachText(text, [f]) == [text(f)]
  {
    var fs := [f];
    assert fs[1..] == [];
    assert EachText(text, fs[1..]) == [];
  }

  lemma OnePair(f: Field)
    ensures PairTexts([f]) == [PairText(f)]
  {
    OneText(PairText, f);
  }

  lemma FourTexts(text: Field -> string, a: Field, b: Field, c: Field, d: Field)
    ensures EachText(text, [a, b, c, d]) == [text(a), text(b), text(c), text(d)]
  {
    OneText(text, a);
    OneText(text, b);
    OneText(text, c);
    OneText(text, d);
    EachTextAppend(text, [a], [b]);
    EachTextAppend(text, [a, b], [c]);
    EachTextAppend(text, [a, b, c], [d]);
    assert [a] + [b] == [a, b] && [a, b] + [c] == [a, b, c] && [a, b, c] + [d] == [a, b, c, d];
  }

  lemma {:induction false} EachTextAppend(text: Field -> string, a: seq<Field>, b: seq<Field>)
    ensures EachText(text, a + b) == EachText(text, a) + EachText(text, b)
  {
    if a == [] {
      assert a + b == b;
    } else {
      calc {
        EachText(text, a + b);
      == { assert (a + b)[1..] == a[1..] + b && (a + b)[0] == a[0]; }
        [text(a[0])] + EachText(text, a[1..] + b);
      == { EachTextAppend(text, a[1..], b); }
        [text(a[0])] + (EachText(text, a[1..]) + EachText(text, b));
      ==
        [text(a[0])] + EachText(text, a[1..]) + EachText(text, b);
      }
    }
  }

  lemma {:induction false} JoinPush(sep: string, parts: seq<string>, last: string)
    requires parts != []
    ensures Join(sep, parts + [last]) == Join(sep, parts) + sep + last
  {
    if |parts| == 1 {
      assert (parts + [last])[1..] == [last];
    } else {
      JoinPush(sep, parts[1..], last);
      assert (parts + [last])[1..] == parts[1..] + [last];
      var x, y := parts[0], Join(sep, parts[1..]);
      assert x + sep + (y + sep + last) == (x + sep + y) + sep + last;
    }
  }

  lemma JoinFour(text: Field -> string, a: Field, b: Field, c: Field, d: Field)
    ensures Join("&", EachText(text, [a, b, c, d])) ==
            text(a) + "&" + text(b) + "&" + text(c) + "&" + text(d)
  {
    FourTexts(text, a, b, c, d);
    var w, x, y, z := text(a), text(b), text(c), text(d);
    JoinPush("&", [w], x);
    JoinPush("&", [w, x], y);
    JoinPush("&", [w, x, y], z);
    assert [w] + [x] == [w, x] && [w, x] + [y] == [w, x, y] && [w, x, y] + [z] == [w, x, y, z];
  }

  lemma JoinOneMore(text: Field -> string, fs: seq<Field>, f: Field)
    requires fs != []
    ensures Join("&", EachText(text, fs + [f])) == Join("&", EachText(text, fs)) + "&" + text(f)
  {
    EachTextAppend(text, fs, [f]);
    OneText(text, f);
    JoinPush("&", EachText(text, fs), text(f));
  }

  /** The word under which a protocol is stored. */
  function Word(p: Protocol): (s: string) {
    match p
    case Sftp => "sftp"
    case Scp => "scp"
    case Ftp => "ftp"
    case Ftps => "ftps"
    case WebDav => "webdav"
    case Smb => "smb"
    case Telnet => "telnet"
  }

  /** Names and numbers are stored as they are, texts percent-encoded. */
  function BasicText(fold: string -> string, o: Preset): (s: string) {
    "protocol" + "=" + Word(o.protocol) + "&" + ("host" + "=" + PercentEncode(fold(Trim(o.host))))
    + "&" + ("port" + "=" + Decimal(o.port)) + "&" + ("user" + "=" + PercentEncode(Trim(o.username)))
  }

  /** What belongs to one protocol is stored for that one only, and of Telnet only what is not the default. */
  function ExtraText(o: Preset): (s: string) {
    match o.protocol
    case WebDav => "&" + ("webdavScheme" + "=" + if o.webdavScheme == Http then "http" else "https")
    case Smb =>
      if o.smbDomain.None? || Trim(o.smbDomain.value) == "" then ""
      else "&" + ("smbDomain" + "=" + PercentEncode(Trim(o.smbDomain.value)))
    case Telnet =>
      (if o.telnetTls then "&" + ("telnetTls" + "=" + "1") else "")
      + (if o.telnetAutoLogin then "" else "&" + ("telnetAutoLogin" + "=" + "0"))
    case _ => ""
  }

  lemma BasicsAppear(fold: string -> string, o: Preset)
    ensures Join("&", PairTexts(Basics(fold, o))) == BasicText(fold, o)
  {
    var name, port := ("protocol", StorageName(o.protocol)), ("port", Decimal(o.port));
    NameIsPlain(o.protocol);
    DecimalIsPlain(o.port);
    PlainEncodes(name.1);
    PlainEncodes(port.1);
    JoinFour(PairText, name, ("host", fold(Trim(o.host))), port, ("user", Trim(o.username)));
  }

  lemma NameIsPlain(p: Protocol)
    ensures Plain(StorageName(p)) && StorageName(p) == Word(p)
  {
  }

  lemma ExtrasAppear(fs: seq<Field>, o: Preset)
    requires fs != []
    ensures Join("&", PairTexts(fs + Extras(o))) == Join("&", PairTexts(fs)) + ExtraText(o)
  {
    var front := Join("&", PairTexts(fs));
    if o.protocol == WebDav {
      PlainEncodes(SchemeName(o.webdavScheme));
      OneAppears(fs, ("webdavScheme", SchemeName(o.webdavScheme)));
    } else if o.protocol == Smb && o.smbDomain.Some? && Trim(o.smbDomain.value) != "" {
      OneAppears(fs, ("smbDomain", Trim(o.smbDomain.value)));
    } else if o.protocol == Telnet {
      TelnetAppears(fs, o.telnetTls, o.telnetAutoLogin);
    } else {
      assert fs + [] == fs && front + "" == front;
    }
  }

  lemma OneAppears(fs: seq<Field>, f: Field)
    requires fs != []
    ensures Join("&", PairTexts(fs + [f])) ==
            Join("&", PairTexts(fs)) + ("&" + (f.0 + "=" + PercentEncode(f.1)))
  {
    JoinOneMore(PairText, fs, f);
    Regrouped(Join("&", PairTexts(fs)), "&", PairText(f));
  }

  lemma Regrouped(a: string, b: string, c: string)
    ensures a + b + c == a + (b + c)
  {
  }

  lemma TelnetAppears(fs: seq<Field>, tls: bool, autoLogin: bool)
    requires fs != []
    ensures Join("&", PairTexts(fs + TelnetExtras(tls, autoLogin))) ==
            Join("&", PairTexts(fs))
            + ((if tls then "&" + ("telnetTls" + "=" + "1") else "")
               + (if autoLogin then "" else "&" + ("telnetAutoLogin" + "=" + "0")))
  {
    var first: seq<Field> := if tls then [("telnetTls", "1")] else [];
    var second: seq<Field> := if autoLogin then [] else [("telnetAutoLogin", "0")];
    PlainEncodes("1");
    PlainEncodes("0");
    MaybeAppears(fs, ("telnetTls", "1"), tls);
    MaybeAppears(fs + first, ("telnetAutoLogin", "0"), !autoLogin);
    assert fs + (first + second) == fs + first + second;
    Regrouped(Join("&", PairTexts(fs)), if tls then "&" + ("telnetTls" + "=" + "1") else "",
              if autoLogin then "" else "&" + ("telnetAutoLogin" + "=" + "0"));
  }

  lemma MaybeAppears(fs: seq<Field>, f: Field, written: bool)
    requires fs != []
    ensures Join("&", PairTexts(fs + if written then [f] else [])) ==
            Join("&", PairTexts(fs)) + if written then "&" + (f.0 + "=" + PercentEncode(f.1)) else ""
  {
    if written {
      OneAppears(fs, f);
    } else {
      assert fs + [] == fs && Join("&", PairTexts(fs)) + "" == Join("&", PairTexts(fs));
    }
  }

  /** The stored text in full; without a host nothing is stored. */
  lemma EncodedText(fold: string -> string, o: Preset)
    ensures EncodeServer(fold, o) == if fold(Trim(o.host)) == "" then "" else BasicText(fold, o) + ExtraText(o)
  {
    BasicsAppear(fold, o);
    ExtrasAppear(Basics(fold, o), o);
  }
}
