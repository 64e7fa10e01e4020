/** Reading recent-server entries back (`decode_recent_server` of `history.rs`), and the identity that
    the encoding stands for. */
module RecentIdentity {
  import opened Text
  import opened Protocols
  import opened Utf8
  import opened PercentCoding
  import opened RecentServers

  /** The values collected from the pairs of an entry. */
  datatype Raw = Raw(
    protocol: string, host: string, port: Option<Port>, user: string,
    scheme: string, domain: string, tls: bool, autoLogin: bool)

  const START: Raw := Raw("", "", None, "", "", "", false, true)

  function SetField(r: Raw, f: Field): (q: Raw) {
    if f.0 == "protocol" then r.(protocol := f.1)
    else if f.0 == "host" then r.(host := f.1)
    else if f.0 == "port" then r.(port := ParsePort(Trim(f.1)))
    else if f.0 == "user" then r.(user := f.1)
    else if f.0 == "webdavScheme" then r.(scheme := f.1)
    else if f.0 == "smbDomain" then r.(domain := f.1)
    else if f.0 == "telnetTls" then r.(tls := Trim(f.1) == "1")
    else if f.0 == "telnetAutoLogin" then r.(autoLogin := Trim(f.1) != "0")
    else r
  }

  /** `str::split_once('=')`. */
  function SplitOnce(s: string): (r: Option<(string, string)>) {
    if s == "" then None
    else if s[0] == '=' then Some(("", s[1..]))
    else
      var rest := SplitOnce(s[1..]);
      if rest.None? then None else Some(([s[0]] + rest.value.0, rest.value.1))
  }

  function ReadField(pair: string): (f: Option<Field>) {
    var kv := SplitOnce(pair);
    if kv.None? then None
    else
      var key, value := PercentDecode(kv.value.0), PercentDecode(kv.value.1);
      if key.None? || value.None? then None else Some((key.value, value.value))
  }

  function ReadPairs(r: Raw, pairs: seq<string>): (q: Option<Raw>)
    decreases pairs
  {
    if pairs == [] then Some(r)
    else
      var f := ReadField(pairs[0]);
      if f.None? then None else ReadPairs(SetField(r, f.value), pairs[1..])
  }

  function PortOf(protocol: Protocol, r: Raw): (p: Port) {
    if r.port.Some? && r.port.value > 0 then r.port.value
    else if protocol == Telnet then DefaultTelnetPort(r.tls) else DefaultPort(protocol)
  }

  function SchemeOf(protocol: Protocol, r: Raw): (w: WebDavScheme) {
    if protocol != WebDav then Https
    else if r.scheme != "" then SchemeFromName(r.scheme)
    else if PortOf(protocol, r) == 80 then Http else Https
  }

  /** The options of one protocol that collected values stand for. */
  function Assemble(protocol: Protocol, host: string, r: Raw): (o: Preset) {
    var domain := if protocol == Smb && Trim(r.domain) != "" then Some(Trim(r.domain)) else None;
    Preset(protocol, host, PortOf(protocol, r), Trim(r.user), SchemeOf(protocol, r), SchemeOf(protocol, r) != Http,
           domain, protocol == Telnet && r.tls, protocol != Telnet || r.autoLogin)
  }

  /** The preset that collected values stand for. */
  function Finish(fold: string -> string, r: Raw): (o: Option<Preset>) {
    var host := fold(Trim(r.host));
    if host == "" then None else Some(Assemble(FromStorageName(r.protocol), host, r))
  }

  function DecodeServer(fold: string -> string, encoded: string): (o: Option<Preset>) {
    var r := ReadPairs(START, Split(encoded, '&'));
    if r.None? then None else Finish(fold, r.value)
  }

  method DecodeRecentServer(fold: string -> string, encoded: string) returns (o: Option<Preset>)
    ensures o == DecodeServer(fold, encoded)
  {
    var pairs := Split(encoded, '&');
    var raw := START;
    var i := 0;
    while i < |pairs|
      invariant 0 <= i <= |pairs|
      invariant ReadPairs(raw, pairs[i..]) == ReadPairs(START, pairs)
    {
      ghost var rest := pairs[i..];
      assert rest[0] == pairs[i] && rest[1..] == pairs[i + 1..];
      var f := ReadField(pairs[i]);
      if f.None? {
        return None;
      }
      raw := SetField(raw, f.value);
      i := i + 1;
    }
    o := Finish(fold, raw);
  }

  // ---------------------------------------------------------------------------
  // The identity
  // ---------------------------------------------------------------------------

  /** What of a preset the identity keeps: protocol, folded host, port, user, and the extras that
      belong to its protocol. */
  function Canonical(fold: string -> string, o: Preset): (c: Preset) {
    var scheme := if o.protocol == WebDav then o.webdavScheme else Https;
    Preset(
      o.protocol, fold(Trim(o.host)), o.port, Trim(o.username), scheme, scheme != Http,
      if o.protocol == Smb && o.smbDomain.Some? && Trim(o.smbDomain.value) != "" then Some(Trim(o.smbDomain.value))
      else None,
      o.protocol == Telnet && o.telnetTls, o.protocol != Telnet || o.telnetAutoLogin)
  }

  // ---------------------------------------------------------------------------
  // Encoded pairs come back
  // ---------------------------------------------------------------------------

  lemma {:induction false} SplitOnceKey(key: string, value: string)
    requires Lacks(key, '=')
    ensures SplitOnce(key + "=" + value) == Some((key, value))
  {
    var s := key + "=" + value;
    if key == "" {
      assert s[1..] == value;
    } else {
      SplitOnceKey(key[1..], value);
      assert s[1..] == key[1..] + "=" + value;
      assert [key[0]] + key[1..] == key;
    }
  }

  predicate Omits(bs: Bytes, b: nat) {
    forall i :: 0 <= i < |bs| ==> bs[i] != b
  }

  lemma {:induction false} EscapedOmits(bs: Bytes)
    requires AllBytes(bs)
    ensures Omits(EscapeBytes(bs), '&' as int)
  {
    if bs != [] {
      EscapedOmits(bs[1..]);
      assert Omits(EscapeByte(bs[0]), '&' as int);
    }
  }

  lemma {:induction false} CharsAt(bs: Bytes, i: nat)
    requires Ascii(bs) && i < |bs|
    ensures |Chars(bs)| == |bs| && Chars(bs)[i] == bs[i] as char
  {
    CharsLength(bs);
    if i > 0 {
      CharsAt(bs[1..], i - 1);
    }
  }

  lemma {:induction false} CharsLength(bs: Bytes)
    requires Ascii(bs)
    ensures |Chars(bs)| == |bs|
  {
    if bs != [] {
      CharsLength(bs[1..]);
    }
  }

  lemma EncodedLacks(value: string)
    ensures Lacks(PercentEncode(value), '&')
  {
    EncodedBytes(value);
    EscapedIsAscii(Encode(value));
    var es := EscapeBytes(Encode(value));
    EscapedOmits(Encode(value));
    CharsLength(es);
    forall i | 0 <= i < |Chars(es)|
      ensures Chars(es)[i] != '&'
    {
      CharsAt(es, i);
    }
  }

  lemma FieldReads(f: Field)
    requires Plain(f.0)
    ensures ReadField(PairText(f)) == Some(f) && Lacks(PairText(f), '&')
  {
    SplitOnceKey(f.0, PercentEncode(f.1));
    PlainEncodes(f.0);
    DecodeUndoesEncode(f.0);
    DecodeUndoesEncode(f.1);
    EncodedLacks(f.1);
  }

  predicate KeysPlain(fs: seq<Field>) {
    if fs == [] then true else Plain(fs[0].0) && KeysPlain(fs[1..])
  }

  function SetAll(r: Raw, fs: seq<Field>): (q: Raw)
    decreases fs
  {
    if fs == [] then r else SetAll(SetField(r, fs[0]), fs[1..])
  }

  lemma {:induction false} PairsRead(r: Raw, fs: seq<Field>)
    requires KeysPlain(fs)
    ensures ReadPairs(r, PairTexts(fs)) == Some(SetAll(r, fs)) && AllLack(PairTexts(fs), '&')
    decreases fs
  {
    if fs != [] {
      FieldReads(fs[0]);
      PairsRead(SetField(r, fs[0]), fs[1..]);
      assert PairTexts(fs)[1..] == PairTexts(fs[1..]);
    }
  }

  lemma {:induction false} SetAllAppend(r: Raw, a: seq<Field>, b: seq<Field>)
    ensures SetAll(r, a + b) == SetAll(SetAll(r, a), b)
    decreases a
  {
    if a == [] {
      assert a + b == b;
    } else {
      SetAllAppend(SetField(r, a[0]), a[1..], b);
      assert (a + b)[1..] == a[1..] + b;
    }
  }

  lemma {:induction false} KeysPlainAppend(a: seq<Field>, b: seq<Field>)
    requires KeysPlain(a) && KeysPlain(b)
    ensures KeysPlain(a + b)
  {
    if a == [] {
      assert a + b == b;
    } else {
      KeysPlainAppend(a[1..], b);
      assert (a + b)[1..] == a[1..] + b;
    }
  }

  // ---------------------------------------------------------------------------
  // The fields of a preset
  // ---------------------------------------------------------------------------

  lemma BasicsSet(fold: string -> string, o: Preset)
    ensures SetAll(START, Basics(fold, o))
         == START.(protocol := StorageName(o.protocol), host := fold(Trim(o.host)), port := Some(o.port),
                    user := Trim(o.username))
    ensures KeysPlain(Basics(fold, o))
  {
    var a, b := ("protocol", StorageName(o.protocol)), ("host", fold(Trim(o.host)));
    var c, d := ("port", Decimal(o.port)), ("user", Trim(o.username));
    PortReads(o.port);
    var r0 := START;
    var r1, r2, r3 := SetField(r0, a), SetField(SetField(r0, a), b), SetField(SetField(SetField(r0, a), b), c);
    SetAllAppend(r0, [a], [b]);
    SetAllAppend(r0, [a, b], [c]);
    SetAllAppend(r0, [a, b, c], [d]);
    assert [a] + [b] == [a, b] && [a, b] + [c] == [a, b, c] && [a, b, c] + [d] == Basics(fold, o);
    BasicKeys(a, b, c, d);
    assert "host"[0] == 'h' && "port"[0] == 'p' && "user"[0] == 'u';
  }

  lemma BasicKeys(a: Field, b: Field, c: Field, d: Field)
    requires a.0 == "protocol" && b.0 == "host" && c.0 == "port" && d.0 == "user"
    ensures KeysPlain([a, b, c, d])
  {
    KeysPlainAppend([a], [b]);
    KeysPlainAppend([a] + [b], [c]);
    KeysPlainAppend([a] + [b] + [c], [d]);
    assert [a] + [b] + [c] + [d] == [a, b, c, d];
  }

  function ExtrasSet(r: Raw, o: Preset): (q: Raw) {
    if o.protocol == WebDav then r.(scheme := SchemeName(o.webdavScheme))
    else if o.protocol == Smb then
      if o.smbDomain.Some? && Trim(o.smbDomain.value) != "" then r.(domain := Trim(o.smbDomain.value)) else r
    else if o.protocol == Telnet then r.(tls := o.telnetTls || r.tls, autoLogin := o.telnetAutoLogin && r.autoLogin)
    else r
  }

  lemma ExtrasRead(r: Raw, o: Preset)
    requires !r.tls && r.autoLogin
    ensures SetAll(r, Extras(o)) == ExtrasSet(r, o) && KeysPlain(Extras(o))
  {
    if o.protocol == WebDav {
      var f := ("webdavScheme", SchemeName(o.webdavScheme));
    } else if o.protocol == Smb {
      if o.smbDomain.Some? && Trim(o.smbDomain.value) != "" {
        var f := ("smbDomain", Trim(o.smbDomain.value));
      }
    } else if o.protocol == Telnet {
      TelnetRead(r, o.telnetTls, o.telnetAutoLogin);
    }
  }

  lemma TelnetRead(r: Raw, tls: bool, autoLogin: bool)
    requires !r.tls && r.autoLogin
    ensures SetAll(r, TelnetExtras(tls, autoLogin)) == r.(tls := tls, autoLogin := autoLogin)
    ensures KeysPlain(TelnetExtras(tls, autoLogin))
  {
    var a, b := ("telnetTls", "1"), ("telnetAutoLogin", "0");
    TrimmedExactlyWhenFixed("1");
    TrimmedExactlyWhenFixed("0");
    var first: seq<Field> := if tls then [a] else [];
    var second: seq<Field> := if autoLogin then [] else [b];
    SetAllAppend(r, first, second);
    KeysPlainAppend(first, second);
  }

  /** Everything the encoder writes is collected again. */
  lemma EncodedFieldsRead(fold: string -> string, o: Preset)
    requires fold(Trim(o.host)) != ""
    ensures ReadPairs(START, Split(EncodeServer(fold, o), '&')) == Some(ExtrasSet(SetAll(START, Basics(fold, o)), o))
  {
    var fs := FieldsOf(fold, o);
    var r := SetAll(START, Basics(fold, o));
    BasicsSet(fold, o);
    ExtrasRead(r, o);
    KeysPlainAppend(Basics(fold, o), Extras(o));
    SetAllAppend(START, Basics(fold, o), Extras(o));
    PairsRead(START, fs);
    SplitUndoesJoin(PairTexts(fs), '&');
  }

  // ---------------------------------------------------------------------------
  // Main results
  // ---------------------------------------------------------------------------

  lemma TrimTwice(s: string)
    ensures Trim(Trim(s)) == Trim(s)
  {
    TrimmedExactlyWhenFixed(s);
    TrimmedExactlyWhenFixed(Trim(s));
  }

  lemma FoldTwice(fold: string -> string, s: string)
    requires LawfulFold(fold)
    ensures fold(Trim(fold(Trim(s)))) == fold(Trim(s))
    ensures Trim(s) == "" ==> fold(Trim(s)) == ""
  {
    var t := Trim(s);
    TrimmedExactlyWhenFixed(s);
    assert LawfulAt(fold, t);
    TrimmedExactlyWhenFixed(fold(t));
  }

  lemma FinishedFields(fold: string -> string, o: Preset)
    requires LawfulFold(fold) && fold(Trim(o.host)) != ""
    ensures var r := ExtrasSet(SetAll(START, Basics(fold, o)), o);
            Finish(fold, r).Some? && (Finish(fold, r) == Some(Canonical(fold, o)) <==> o.port > 0)
  {
    var r := ExtrasSet(SetAll(START, Basics(fold, o)), o);
    BasicsSet(fold, o);
    FoldTwice(fold, o.host);
    NamesRoundTrip(o.protocol, o.webdavScheme);
    AssembledExactlyWhen(fold, o, r);
  }

  lemma AssembledExactlyWhen(fold: string -> string, o: Preset, r: Raw)
    requires r == ExtrasSet(START.(protocol := r.protocol, host := r.host, port := Some(o.port),
                                   user := Trim(o.username)), o)
    ensures Assemble(o.protocol, fold(Trim(o.host)), r) == Canonical(fold, o) <==> o.port > 0
  {
    TrimTwice(o.username);
    NamesRoundTrip(o.protocol, o.webdavScheme);
    if o.smbDomain.Some? {
      TrimTwice(o.smbDomain.value);
    }
  }

  /** Decoding an encoding yields the canonical form exactly for presets with a host and a port. */
  lemma DecodedExactlyWhen(fold: string -> string, o: Preset)
    requires LawfulFold(fold)
    ensures DecodeServer(fold, EncodeServer(fold, o)) == Some(Canonical(fold, o)) <==> Trim(o.host) != "" && o.port > 0
  {
    assert LawfulAt(fold, Trim(o.host));
    if Trim(o.host) == "" {
      assert EncodeServer(fold, o) == "";
      assert Split("", '&') == [""];
      assert ReadField("").None?;
    } else {
      EncodedFieldsRead(fold, o);
      FinishedFields(fold, o);
    }
  }

  /** Whatever was stored: what comes back is the canonical form, with a missing port filled in by its protocol. */
  lemma DecodedInFull(fold: string -> string, o: Preset)
    requires LawfulFold(fold) && Trim(o.host) != ""
    ensures DecodeServer(fold, EncodeServer(fold, o)) ==
            Some(Canonical(fold, o).(port := if o.port > 0 then o.port else UsualPort(o.protocol, o.telnetTls)))
  {
    assert LawfulAt(fold, Trim(o.host));
    EncodedFieldsRead(fold, o);
    FinishedInFull(fold, o);
  }

  lemma FinishedInFull(fold: string -> string, o: Preset)
    requires LawfulFold(fold) && fold(Trim(o.host)) != ""
    ensures Finish(fold, ExtrasSet(SetAll(START, Basics(fold, o)), o)) ==
            Some(Canonical(fold, o).(port := if o.port > 0 then o.port else UsualPort(o.protocol, o.telnetTls)))
  {
    var r := ExtrasSet(SetAll(START, Basics(fold, o)), o);
    BasicsSet(fold, o);
    FoldTwice(fold, o.host);
    NamesRoundTrip(o.protocol, o.webdavScheme);
    AssembledInFull(fold, o, r);
  }

  function UsualPort(p: Protocol, tls: bool): (n: Port) {
    match p
    case Sftp => 22
    case Scp => 22
    case Ftp => 21
    case Ftps => 990
    case WebDav => 443
    case Smb => 445
    case Telnet => if tls then 992 else 23
  }

  lemma AssembledInFull(fold: string -> string, o: Preset, r: Raw)
    requires r == ExtrasSet(START.(protocol := r.protocol, host := r.host, port := Some(o.port),
                                   user := Trim(o.username)), o)
    ensures Assemble(o.protocol, fold(Trim(o.host)), r) ==
            Canonical(fold, o).(port := if o.port > 0 then o.port else UsualPort(o.protocol, o.telnetTls))
  {
    TrimTwice(o.username);
    NamesRoundTrip(o.protocol, o.webdavScheme);
    if o.smbDomain.Some? {
      TrimTwice(o.smbDomain.value);
    }
  }

  /** The canonical form has the same encoding, so encoding what was decoded changes nothing. */
  lemma CanonicalEncodesAlike(fold: string -> string, o: Preset)
    requires LawfulFold(fold)
    ensures EncodeServer(fold, Canonical(fold, o)) == EncodeServer(fold, o)
    ensures Canonical(fold, Canonical(fold, o)) == Canonical(fold, o)
  {
    CanonicalTexts(fold, o);
    SameFields(fold, o);
  }

  /** The texts of a canonical preset are trimmed and folded already. */
  lemma CanonicalTexts(fold: string -> string, o: Preset)
    requires LawfulFold(fold)
    ensures var c := Canonical(fold, o);
            && fold(Trim(c.host)) == c.host == fold(Trim(o.host)) && Trim(c.username) == c.username
            && (c.smbDomain.Some? ==> Trim(c.smbDomain.value) == c.smbDomain.value)
  {
    FoldTwice(fold, o.host);
    TrimTwice(o.username);
    if o.smbDomain.Some? {
      TrimTwice(o.smbDomain.value);
    }
  }

  lemma SameFields(fold: string -> string, o: Preset)
    requires var c := Canonical(fold, o);
             && fold(Trim(c.host)) == c.host == fold(Trim(o.host)) && Trim(c.username) == c.username
             && (c.smbDomain.Some? ==> Trim(c.smbDomain.value) == c.smbDomain.value)
    ensures FieldsOf(fold, Canonical(fold, o)) == FieldsOf(fold, o)
    ensures Canonical(fold, Canonical(fold, o)) == Canonical(fold, o)
  {
  }

  /** Two presets have one encoding exactly when they have one canonical identity. */
  lemma EncodingIsFaithful(fold: string -> string, a: Preset, b: Preset)
    requires LawfulFold(fold) && Trim(a.host) != ""
    ensures EncodeServer(fold, a) == EncodeServer(fold, b) <==> Canonical(fold, a) == Canonical(fold, b)
  {
    assert LawfulAt(fold, Trim(a.host)) && LawfulAt(fold, Trim(b.host));
    CanonicalEncodesAlike(fold, a);
    CanonicalEncodesAlike(fold, b);
    EncodedFieldsRead(fold, a);
    if EncodeServer(fold, a) == EncodeServer(fold, b) {
      EncodedFieldsRead(fold, b);
      FieldsDetermine(fold, a, b);
    }
  }

  lemma FieldsDetermine(fold: string -> string, a: Preset, b: Preset)
    requires ExtrasSet(SetAll(START, Basics(fold, a)), a) == ExtrasSet(SetAll(START, Basics(fold, b)), b)
    ensures Canonical(fold, a) == Canonical(fold, b)
  {
    BasicsSet(fold, a);
    BasicsSet(fold, b);
    NamesRoundTrip(a.protocol, a.webdavScheme);
    NamesRoundTrip(b.protocol, b.webdavScheme);
  }
}
