/**
 The setup label of a device (web/src/native/setupLabel.ts): the scanner of the
 `WIFI:` URI and the choice between the three encodings.

 JSON.parse and String.toUpperCase belong to the platform: any functions at all.
 */
module SetupLabel {
  import opened Wrappers
  import opened Text

  datatype Credentials = Credentials(ssid: string, password: Option<string>, serial: Option<string>)

  datatype LabelError = EmptyLabel | BadJson | NoSsid | Unrecognised

  // What JSON.parse yields: the three members as far as they are strings.
  datatype JsonLabel = JsonLabel(ssid: Option<string>, password: Option<string>, serial: Option<string>)

  datatype Platform = Platform(upper: string -> string, parseJson: string -> Option<JsonLabel>)

  function NonEmpty(s: string): Option<string> {
    if s == "" then None else Some(s)
  }

  // ----- the scanner -----

  type Fields = map<string, string>

  datatype Scan = Scan(fields: Fields, key: Option<string>, buf: string, escaped: bool)

  const START := Scan(map[], None, "", false)

  function Commit(p: Platform, s: Scan): Scan {
    Scan(if s.key.Some? then s.fields[p.upper(s.key.value) := s.buf] else s.fields, None, "", s.escaped)
  }

  function Feed(p: Platform, s: Scan, ch: char): Scan {
    if s.escaped then s.(buf := s.buf + [ch], escaped := false)
    else if ch == '\\' then s.(escaped := true)
    else if ch == ':' && s.key.None? then s.(key := Some(s.buf), buf := "")
    else if ch == ';' then Commit(p, s)
    else s.(buf := s.buf + [ch])
  }

  function FeedAll(p: Platform, s: Scan, text: string): Scan {
    if text == "" then s else Feed(p, FeedAll(p, s, text[..|text| - 1]), text[|text| - 1])
  }

  const SCHEME := "WIFI:"

  function UriFields(p: Platform, text: string): Fields
    requires |text| >= |SCHEME|
  {
    Commit(p, FeedAll(p, START, text[|SCHEME|..])).fields
  }

  function Field(fields: Fields, name: string): string {
    if name in fields then fields[name] else ""
  }

  function FromFields(fields: Fields): Result<Credentials, LabelError> {
    var ssid, serial := Field(fields, "S"), Field(fields, "SN");
    if ssid == "" then Err(NoSsid)
    else Ok(Credentials(ssid, NonEmpty(Field(fields, "P")),
                        NonEmpty(if serial != "" then serial else Field(fields, "SERIAL"))))
  }

  method FromWifiUri(p: Platform, text: string) returns (r: Result<Credentials, LabelError>)
    requires |text| >= |SCHEME|
    ensures r == FromFields(UriFields(p, text))
  {
    var body := text[|SCHEME|..];
    var fields: Fields := map[];
    var key: Option<string> := None;
    var buf := "";
    var escaped := false;
    for i := 0 to |body|
      invariant Scan(fields, key, buf, escaped) == FeedAll(p, START, body[..i])
    {
      assert body[..i + 1][..i] == body[..i];
      var ch := body[i];
      if escaped {
        buf := buf + [ch];
        escaped := false;
      } else if ch == '\\' {
        escaped := true;
      } else if ch == ':' && key.None? {
        key := Some(buf);
        buf := "";
      } else if ch == ';' {
        if key.Some? {
          fields := fields[p.upper(key.value) := buf];
        }
        key, buf := None, "";
      } else {
        buf := buf + [ch];
      }
    }
    assert body[..|body|] == body;
    if key.Some? {
      fields := fields[p.upper(key.value) := buf];
    }
    var ssid := Field(fields, "S");
    if ssid == "" {
      return Err(NoSsid);
    }
    var serial := Field(fields, "SN");
    if serial == "" {
      serial := Field(fields, "SERIAL");
    }
    r := Ok(Credentials(ssid, NonEmpty(Field(fields, "P")), NonEmpty(serial)));
  }

  // ----- the three encodings -----

  // The whitespace String.trim removes.
  predicate IsJsSpace(c: char) {
    (IsSpace(c) && c != '\U{85}') || c == '\U{FEFF}'
  }

  function Str(v: Option<string>): string {
    if v.Some? then Trim(v.value, IsJsSpace) else ""
  }

  function FromJson(p: Platform, text: string): Result<Credentials, LabelError> {
    var obj := p.parseJson(text);
    if obj.None? then Err(BadJson)
    else if Str(obj.value.ssid) == "" then Err(NoSsid)
    else Ok(Credentials(Str(obj.value.ssid), NonEmpty(Str(obj.value.password)), NonEmpty(Str(obj.value.serial))))
  }

  predicate HasScheme(text: string) {
    && |text| >= |SCHEME|
    && text[0] in {'W', 'w'} && text[1] in {'I', 'i'} && text[2] in {'F', 'f'} && text[3] in {'I', 'i'} && text[4] == ':'
  }

  function ParseSetupLabel(p: Platform, raw: string): Result<Credentials, LabelError> {
    var text := Trim(raw, IsJsSpace);
    if text == "" then Err(EmptyLabel)
    else if text[0] == '{' then FromJson(p, text)
    else if HasScheme(text) then FromFields(UriFields(p, text))
    else if ':' !in text && ';' !in text then Ok(Credentials(text, None, None))
    else Err(Unrecognised)
  }

  // ----- printing a label -----

  // Backslash before every special character.
  function Escape(s: string, specials: set<char>): string {
    if s == "" then ""
    else
      var c := s[|s| - 1];
      Escape(s[..|s| - 1], specials) + if c in specials then ['\\', c] else [c]
  }

  // The characters the label format escapes.
  const SPECIALS := {';', ':', ',', '\\'}

  datatype Entry = Entry(key: string, value: string)

  function PrintFields(entries: seq<Entry>, specials: set<char>): string {
    if entries == [] then ""
    else
      var e := entries[|entries| - 1];
      PrintFields(entries[..|entries| - 1], specials)
      + (Escape(e.key, specials) + [':'] + Escape(e.value, specials) + [';'])
  }

  function PrintUri(entries: seq<Entry>, specials: set<char>): string {
    SCHEME + (PrintFields(entries, specials) + [';'])
  }

  // What the entries say; of entries with the same key the last one counts.
  function Meaning(p: Platform, entries: seq<Entry>): Fields {
    if entries == [] then map[]
    else
      var e := entries[|entries| - 1];
      Meaning(p, entries[..|entries| - 1])[p.upper(e.key) := e.value]
  }

  // ----- scanning what was printed -----

  lemma {:induction false} FeedConcat(p: Platform, s: Scan, a: string, b: string)
    ensures FeedAll(p, s, a + b) == FeedAll(p, FeedAll(p, s, a), b)
  {
    if b == "" {
      assert a + b == a;
    } else {
      assert (a + b)[..|a + b| - 1] == a + b[..|b| - 1];
      FeedConcat(p, s, a, b[..|b| - 1]);
    }
  }

  lemma FeedOne(p: Platform, s: Scan, ch: char)
    ensures FeedAll(p, s, [ch]) == Feed(p, s, ch)
  {
    assert [ch][..0] == "";
  }

  lemma FeedTwo(p: Platform, s: Scan, c: char, d: char)
    ensures FeedAll(p, s, [c, d]) == Feed(p, Feed(p, s, c), d)
  {
    assert [c, d][..1] == [c];
    FeedOne(p, s, c);
  }

  // Escaped text lands in the buffer as it was: a value needs `;` and `\` to be
  // escaped, a key `:` as well, and escaping more does no harm.
  lemma {:induction false} FeedEscaped(p: Platform, s: Scan, text: string, specials: set<char>)
    requires !s.escaped && ';' in specials && '\\' in specials
    requires s.key.None? ==> ':' in specials
    ensures FeedAll(p, s, Escape(text, specials)) == s.(buf := s.buf + text)
  {
    if text != "" {
      var init, c := text[..|text| - 1], text[|text| - 1];
      var s' := s.(buf := s.buf + init);
      FeedEscaped(p, s, init, specials);
      assert s.buf + init + [c] == s.buf + text;
      if c in specials {
        FeedConcat(p, s, Escape(init, specials), ['\\', c]);
        FeedTwo(p, s', '\\', c);
      } else {
        FeedConcat(p, s, Escape(init, specials), [c]);
        FeedOne(p, s', c);
      }
    }
  }

  lemma FeedEntry(p: Platform, fields: Fields, e: Entry, specials: set<char>)
    requires {';', ':', '\\'} <= specials
    ensures var printed := Escape(e.key, specials) + [':'] + Escape(e.value, specials) + [';'];
            FeedAll(p, START.(fields := fields), printed) == START.(fields := fields[p.upper(e.key) := e.value])
  {
    var s0 := START.(fields := fields);
    var k, v := Escape(e.key, specials), Escape(e.value, specials);
    FeedEscaped(p, s0, e.key, specials);
    var s1 := s0.(buf := e.key);
    assert "" + e.key == e.key && "" + e.value == e.value;
    FeedConcat(p, s0, k, [':']);
    FeedOne(p, s1, ':');
    var s2 := s0.(key := Some(e.key));
    FeedConcat(p, s0, k + [':'], v);
    FeedEscaped(p, s2, e.value, specials);
    FeedConcat(p, s0, k + [':'] + v, [';']);
    FeedOne(p, s2.(buf := e.value), ';');
  }

  lemma {:induction false} FeedPrinted(p: Platform, entries: seq<Entry>, specials: set<char>)
    requires {';', ':', '\\'} <= specials
    ensures FeedAll(p, START, PrintFields(entries, specials)) == START.(fields := Meaning(p, entries))
  {
    if entries != [] {
      var init, e := entries[..|entries| - 1], entries[|entries| - 1];
      FeedPrinted(p, init, specials);
      FeedConcat(p, START, PrintFields(init, specials),
                 Escape(e.key, specials) + [':'] + Escape(e.value, specials) + [';']);
      FeedEntry(p, Meaning(p, init), e, specials);
    }
  }

  // Main result. Any entries at all, printed with at least `;`, `:` and `\`
  // escaped, scan back to what they say.
  lemma ScanPrinted(p: Platform, entries: seq<Entry>, specials: set<char>)
    requires {';', ':', '\\'} <= specials
    ensures UriFields(p, PrintUri(entries, specials)) == Meaning(p, entries)
  {
    var printed := PrintFields(entries, specials);
    assert PrintUri(entries, specials)[|SCHEME|..] == printed + [';'];
    FeedPrinted(p, entries, specials);
    FeedConcat(p, START, printed, [';']);
    FeedOne(p, START.(fields := Meaning(p, entries)), ';');
  }

  ghost predicate DistinctKeys(p: Platform, entries: seq<Entry>) {
    forall i, j :: 0 <= i < j < |entries| ==> p.upper(entries[i].key) != p.upper(entries[j].key)
  }

  // With distinct keys the order of the entries does not matter.
  lemma {:induction false} MeaningOfDistinct(p: Platform, entries: seq<Entry>)
    requires DistinctKeys(p, entries)
    ensures forall e :: e in entries ==> p.upper(e.key) in Meaning(p, entries) && Meaning(p, entries)[p.upper(e.key)] == e.value
    ensures forall k :: k in Meaning(p, entries) ==> exists e :: e in entries && p.upper(e.key) == k
  {
    if entries != [] {
      var init, last := entries[..|entries| - 1], entries[|entries| - 1];
      MeaningOfDistinct(p, init);
      assert entries == init + [last];
      forall e | e in init ensures p.upper(e.key) != p.upper(last.key) {
        var i :| 0 <= i < |init| && init[i] == e;
        assert p.upper(entries[i].key) != p.upper(last.key);
      }
    }
  }

  ghost predicate KeepsCapitals(p: Platform) {
    p.upper("S") == "S" && p.upper("P") == "P" && p.upper("SN") == "SN"
  }

  // The label round trip: whatever the password and serial, and in whatever
  // order the fields come, a printed label with an SSID reads back as the
  // credentials it was printed from; empty fields read back as absent.
  lemma LabelRoundTrip(p: Platform, ssid: string, password: string, serial: string, entries: seq<Entry>)
    requires KeepsCapitals(p) && ssid != ""
    requires multiset(entries) == multiset([Entry("S", ssid), Entry("P", password), Entry("SN", serial)])
    ensures ParseSetupLabel(p, PrintUri(entries, SPECIALS))
         == Ok(Credentials(ssid, NonEmpty(password), NonEmpty(serial)))
  {
    PrintedIsUri(p, entries);
    ScanPrinted(p, entries, SPECIALS);
    ThreeFields(p, ssid, password, serial, entries);
  }

  lemma PrintedEnds(entries: seq<Entry>)
    ensures var uri := PrintUri(entries, SPECIALS); HasScheme(uri) && uri[0] == 'W' && uri[|uri| - 1] == ';'
  {
    var uri := PrintUri(entries, SPECIALS);
    assert uri[..|SCHEME|] == SCHEME;
    assert uri[0] == SCHEME[0] && uri[1] == SCHEME[1] && uri[2] == SCHEME[2] && uri[3] == SCHEME[3] && uri[4] == SCHEME[4];
  }

  lemma PrintedIsUri(p: Platform, entries: seq<Entry>)
    ensures ParseSetupLabel(p, PrintUri(entries, SPECIALS)) == FromFields(UriFields(p, PrintUri(entries, SPECIALS)))
  {
    var uri := PrintUri(entries, SPECIALS);
    PrintedEnds(entries);
    assert !IsJsSpace('W') && !IsJsSpace(';');
    TrimNothing(uri, IsJsSpace);
  }

  lemma ThreeFields(p: Platform, ssid: string, password: string, serial: string, entries: seq<Entry>)
    requires KeepsCapitals(p)
    requires multiset(entries) == multiset([Entry("S", ssid), Entry("P", password), Entry("SN", serial)])
    ensures Meaning(p, entries) == map["S" := ssid, "P" := password, "SN" := serial]
  {
    var m := Meaning(p, entries);
    ThreeEntries(p, ssid, password, serial, entries);
    MeaningOfDistinct(p, entries);
    AllThree(ssid, password, serial, entries);
    assert "S" in m && m["S"] == ssid;
    assert "P" in m && m["P"] == password;
    assert "SN" in m && m["SN"] == serial;
    forall k | k in m ensures k in {"S", "P", "SN"} {
      var e :| e in entries && p.upper(e.key) == k;
    }
  }

  lemma AllThree(ssid: string, password: string, serial: string, entries: seq<Entry>)
    requires multiset(entries) == multiset([Entry("S", ssid), Entry("P", password), Entry("SN", serial)])
    ensures Entry("S", ssid) in entries && Entry("P", password) in entries && Entry("SN", serial) in entries
  {
    forall e | e in [Entry("S", ssid), Entry("P", password), Entry("SN", serial)] ensures e in entries {
      assert e in multiset(entries);
    }
    assert [Entry("S", ssid), Entry("P", password), Entry("SN", serial)][0] == Entry("S", ssid);
    assert [Entry("S", ssid), Entry("P", password), Entry("SN", serial)][1] == Entry("P", password);
    assert [Entry("S", ssid), Entry("P", password), Entry("SN", serial)][2] == Entry("SN", serial);
  }

  lemma ThreeEntries(p: Platform, ssid: string, password: string, serial: string, entries: seq<Entry>)
    requires KeepsCapitals(p)
    requires multiset(entries) == multiset([Entry("S", ssid), Entry("P", password), Entry("SN", serial)])
    ensures DistinctKeys(p, entries)
    ensures forall e :: e in entries ==> p.upper(e.key) in {"S", "P", "SN"}
  {
    var all := [Entry("S", ssid), Entry("P", password), Entry("SN", serial)];
    forall e | e in entries ensures e in all {
      assert e in multiset(entries);
    }
    forall i, j | 0 <= i < j < |entries| ensures p.upper(entries[i].key) != p.upper(entries[j].key) {
      if entries[i] == entries[j] {
        OccursTwice(entries, i, j);
      }
    }
  }

  lemma OccursTwice(entries: seq<Entry>, i: nat, j: nat)
    requires i < j < |entries| && entries[i] == entries[j]
    ensures multiset(entries)[entries[i]] >= 2
  {
    assert entries == entries[..i] + [entries[i]] + entries[i + 1..j] + [entries[j]] + entries[j + 1..];
  }

  // ----- which escapes a value needs -----

  // A label with this SSID alone gives it back.
  ghost predicate Survives(p: Platform, value: string, specials: set<char>) {
    var fields := Commit(p, FeedAll(p, START, ['S', ':'] + Escape(value, specials) + [';'])).fields;
    p.upper("S") in fields && fields[p.upper("S")] == value
  }

  lemma FeedValue(p: Platform, value: string, specials: set<char>)
    ensures FeedAll(p, START, ['S', ':'] + Escape(value, specials) + [';'])
         == Feed(p, FeedAll(p, Scan(map[], Some("S"), "", false), Escape(value, specials)), ';')
  {
    var head := ['S', ':'];
    FeedTwo(p, START, 'S', ':');
    assert "" + ['S'] == "S";
    FeedConcat(p, START, head, Escape(value, specials));
    FeedConcat(p, START, head + Escape(value, specials), [';']);
    FeedOne(p, FeedAll(p, START, head + Escape(value, specials)), ';');
  }

  // Every value survives exactly when the printer escapes `;` and `\`: a colon
  // or a comma in a value needs no escape.
  lemma EveryValueSurvivesIff(p: Platform, specials: set<char>)
    ensures (forall v :: Survives(p, v, specials)) <==> ';' in specials && '\\' in specials
  {
    var inside := Scan(map[], Some("S"), "", false);
    if ';' in specials && '\\' in specials {
      forall v ensures Survives(p, v, specials) {
        FeedValue(p, v, specials);
        FeedEscaped(p, inside, v, specials);
        assert "" + v == v;
      }
    } else {
      var c := if ';' in specials then '\\' else ';';
      FeedValue(p, [c], specials);
      assert [c][..0] == "";
      assert Escape([c], specials) == [c];
      FeedOne(p, inside, c);
      assert !Survives(p, [c], specials);
    }
  }

  // ----- the other encodings -----

  function Trimmed(s: string): string {
    Trim(s, IsJsSpace)
  }

  // Nothing between the trimmed ends starts or ends with whitespace.
  lemma {:induction false} TrimmedEnds(s: string)
    ensures Trimmed(s) != "" ==> !IsJsSpace(Trimmed(s)[0]) && !IsJsSpace(Trimmed(s)[|Trimmed(s)| - 1])
  {
    LeftTrimmed(s);
    RightTrimmed(TrimLeft(s, IsJsSpace));
  }

  lemma {:induction false} LeftTrimmed(s: string)
    ensures TrimLeft(s, IsJsSpace) != "" ==> !IsJsSpace(TrimLeft(s, IsJsSpace)[0])
  {
    if s != [] && IsJsSpace(s[0]) {
      LeftTrimmed(s[1..]);
    }
  }

  lemma {:induction false} RightTrimmed(s: string)
    ensures var t := TrimRight(s, IsJsSpace);
      t <= s && (t != "" ==> !IsJsSpace(t[|t| - 1]))
  {
    if s != [] && IsJsSpace(s[|s| - 1]) {
      RightTrimmed(s[..|s| - 1]);
    }
  }

  // Empty labels are refused; a bare token is the SSID of an open network; and
  // text with separators but neither an object nor the scheme is refused.
  lemma PlainLabels(p: Platform, raw: string)
    ensures Trimmed(raw) == "" ==> ParseSetupLabel(p, raw) == Err(EmptyLabel)
    ensures var text := Trimmed(raw);
      text != "" && text[0] != '{' && ':' !in text && ';' !in text ==>
        ParseSetupLabel(p, raw) == Ok(Credentials(text, None, None))
    ensures var text := Trimmed(raw);
      text != "" && text[0] != '{' && (':' in text || ';' in text) && !HasScheme(text) ==>
        ParseSetupLabel(p, raw) == Err(Unrecognised)
  {
    var text := Trimmed(raw);
    if HasScheme(text) {
      assert ':' == text[4] && ':' in text;
    }
  }

  // An object yields its three members, trimmed, empty ones as absent; without an
  // SSID, or when it does not parse, it is refused.
  lemma JsonLabels(p: Platform, raw: string)
    requires Trimmed(raw) != "" && Trimmed(raw)[0] == '{'
    ensures match p.parseJson(Trimmed(raw))
      case None => ParseSetupLabel(p, raw) == Err(BadJson)
      case Some(JsonLabel(ssid, password, serial)) =>
        if ssid == None || Trimmed(ssid.value) == "" then ParseSetupLabel(p, raw) == Err(NoSsid)
        else ParseSetupLabel(p, raw) == Ok(Credentials(
               Trimmed(ssid.value),
               if password == None || Trimmed(password.value) == "" then None else Some(Trimmed(password.value)),
               if serial == None || Trimmed(serial.value) == "" then None else Some(Trimmed(serial.value))))
  {
  }

  // Of a URI's fields S is the SSID, P the password and SN, or else SERIAL, the
  // serial number.
  lemma FieldsAre(fields: Fields)
    ensures "S" !in fields || fields["S"] == "" ==> FromFields(fields) == Err(NoSsid)
    ensures "S" in fields && fields["S"] != "" ==>
      FromFields(fields) == Ok(Credentials(
        fields["S"],
        if "P" in fields && fields["P"] != "" then Some(fields["P"]) else None,
        if "SN" in fields && fields["SN"] != "" then Some(fields["SN"])
        else if "SERIAL" in fields && fields["SERIAL"] != "" then Some(fields["SERIAL"])
        else None))
  {
  }

  predicate Fresh(s: Scan) {
    s.key.None? && s.buf == "" && !s.escaped
  }

  predicate Plain(text: string) {
    ':' !in text && ';' !in text && '\\' !in text
  }

  lemma {:induction false} FeedPlain(p: Platform, s: Scan, text: string)
    requires !s.escaped && Plain(text)
    ensures FeedAll(p, s, text) == s.(buf := s.buf + text)
  {
    if text != "" {
      var init, last := text[..|text| - 1], text[|text| - 1];
      assert text == init + [last];
      FeedPlain(p, s, init);
      assert s.buf + init + [last] == s.buf + text;
    } else {
      assert s.buf + "" == s.buf;
    }
  }

  // A part with no colon names no field and is passed over.
  lemma KeylessPart(p: Platform, s: Scan, text: string)
    requires Fresh(s) && Plain(text)
    ensures FeedAll(p, s, text + ";") == s
  {
    FeedPlain(p, s, text);
    FeedConcat(p, s, text, ";");
    FeedOne(p, FeedAll(p, s, text), ';');
  }

  // A last field needs no semicolon, and the scheme no capitals.
  lemma OpenField(p: Platform, key: string, value: string)
    requires Plain(key) && Plain(value)
    ensures UriFields(p, "WIFI:" + (key + ":" + value)) == map[p.upper(key) := value]
  {
    var text := key + ":" + value;
    assert ("WIFI:" + text)[5..] == text;
    FeedConcat(p, START, key + ":", value);
    FeedConcat(p, START, key, ":");
    FeedPlain(p, START, key);
    var named := FeedAll(p, START, key);
    FeedOne(p, named, ':');
    FeedPlain(p, Feed(p, named, ':'), value);
    assert "" + key == key && "" + value == value;
  }

  lemma SchemeInAnyCase(rest: string)
    ensures HasScheme("WIFI:" + rest) && HasScheme("wifi:" + rest) && HasScheme("WiFi:" + rest)
    ensures !HasScheme("WIFX:" + rest) && !HasScheme("http:" + rest)
  {
  }
}
