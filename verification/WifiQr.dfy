/**
  The payload of the hotspot's join code. Five successive replacements escape
  the name and the password; a reader that splits the payload at unescaped
  semicolons gets both back, whatever characters they contain.
*/
module WifiQr {
  import opened Wrappers

  const BACKSLASH: char := '\\'

  // ---------------------------------------------------------------------------
  // Escaping
  // ---------------------------------------------------------------------------

  /** Every `c` of `s` replaced by `text`. */
  function Replace(s: string, c: char, text: string): string {
    if s == [] then [] else (if s[0] == c then text else [s[0]]) + Replace(s[1..], c, text)
  }

  /** Every character of `special` preceded by a backslash, in one pass. */
  function EscapeSet(special: set<char>, s: string): string {
    if s == [] then []
    else (if s[0] in special then [BACKSLASH, s[0]] else [s[0]]) + EscapeSet(special, s[1..])
  }

  const SPECIAL: seq<char> := [BACKSLASH, ';', ',', ':', '"']

  predicate IsSpecial(c: char) {
    c in {BACKSLASH, ';', ',', ':', '"'}
  }

  function Escape(s: string): string {
    EscapeSet({BACKSLASH, ';', ',', ':', '"'}, s)
  }

  lemma {:induction false} ReplaceConcat(s: string, t: string, c: char, text: string)
    ensures Replace(s + t, c, text) == Replace(s, c, text) + Replace(t, c, text)
  {
    if s == [] {
      assert s + t == t;
    } else {
      assert (s + t)[1..] == s[1..] + t;
      ReplaceConcat(s[1..], t, c, text);
      var head := if s[0] == c then text else [s[0]];
      assert head + (Replace(s[1..], c, text) + Replace(t, c, text))
          == head + Replace(s[1..], c, text) + Replace(t, c, text);
    }
  }

  lemma ReplacePiece(special: set<char>, x: char, c: char)
    requires c !in special && (special == {} || (BACKSLASH in special && c != BACKSLASH))
    ensures Replace(if x in special then [BACKSLASH, x] else [x], c, [BACKSLASH, c])
            == if x in special + {c} then [BACKSLASH, x] else [x]
  {
    var one, two := [x], [BACKSLASH, x];
    assert one[1..] == [] && two[1..] == [x];
    assert Replace([x], c, [BACKSLASH, c]) == if x == c then [BACKSLASH, c] else [x];
  }

  /** Replacing one more character is escaping one more character, provided the backslash
      is treated before all others. */
  lemma {:induction false} ReplaceExtends(special: set<char>, c: char, s: string)
    requires c !in special && (special == {} || (BACKSLASH in special && c != BACKSLASH))
    ensures Replace(EscapeSet(special, s), c, [BACKSLASH, c]) == EscapeSet(special + {c}, s)
  {
    if s != [] {
      var piece := if s[0] in special then [BACKSLASH, s[0]] else [s[0]];
      ReplaceConcat(piece, EscapeSet(special, s[1..]), c, [BACKSLASH, c]);
      ReplacePiece(special, s[0], c);
      ReplaceExtends(special, c, s[1..]);
    }
  }

  lemma {:induction false} EscapeNothing(s: string)
    ensures EscapeSet({}, s) == s
  {
    if s != [] {
      EscapeNothing(s[1..]);
    }
  }

  function Chars(s: seq<char>): set<char> {
    set c | c in s
  }

  /** The five replacements amount to one pass. */
  method EscapeWifiQr(value: string) returns (escaped: string)
    ensures escaped == Escape(value)
  {
    escaped := value;
    EscapeNothing(value);
    ghost var done: set<char> := {};
    for i := 0 to |SPECIAL|
      invariant done == Chars(SPECIAL[..i])
      invariant escaped == EscapeSet(done, value)
    {
      var c := SPECIAL[i];
      assert SPECIAL[..i + 1] == SPECIAL[..i] + [c];
      assert i > 0 ==> SPECIAL[..i][0] == BACKSLASH;
      assert c !in done by {
        assert forall j, k :: 0 <= j < k < |SPECIAL| ==> SPECIAL[j] != SPECIAL[k];
      }
      ReplaceExtends(done, c, value);
      escaped := Replace(escaped, c, [BACKSLASH, c]);
      done := done + {c};
    }
    assert SPECIAL[..|SPECIAL|] == SPECIAL;
    assert done == {BACKSLASH, ';', ',', ':', '"'};
  }

  method BuildWifiQr(ssid: string, password: string) returns (qr: string)
    ensures qr == Payload(ssid, password)
  {
    var s := EscapeWifiQr(ssid);
    var p := EscapeWifiQr(password);
    qr := "WIFI:S:" + s + ";T:WPA;P:" + p + ";;";
  }

  function Payload(ssid: string, password: string): string {
    "WIFI:S:" + Escape(ssid) + ";T:WPA;P:" + Escape(password) + ";;"
  }

  // ---------------------------------------------------------------------------
  // Reading
  // ---------------------------------------------------------------------------

  /** A backslash gives way to the character it protects. */
  function Unescape(s: string): string {
    if s == [] then []
    else if s[0] == BACKSLASH && |s| > 1 then [s[1]] + Unescape(s[2..])
    else [s[0]] + Unescape(s[1..])
  }

  /** The text before the first unescaped semicolon, and that behind it. */
  function TakeField(s: string): (r: (string, string))
    ensures s != [] ==> |r.1| < |s|
  {
    if s == [] then ([], [])
    else if s[0] == ';' then ([], s[1..])
    else if s[0] == BACKSLASH && |s| > 1 then
      var (field, rest) := TakeField(s[2..]);
      (s[..2] + field, rest)
    else
      var (field, rest) := TakeField(s[1..]);
      ([s[0]] + field, rest)
  }

  /** Fields up to the empty one that ends the payload. */
  function Fields(s: string): seq<string>
    decreases |s|
  {
    if s == [] then []
    else
      var (field, rest) := TakeField(s);
      if field == [] then [] else [field] + Fields(rest)
  }

  function Find(fields: seq<string>, key: string): Option<string> {
    if fields == [] then None
    else if key <= fields[0] then Some(Unescape(fields[0][|key|..]))
    else Find(fields[1..], key)
  }

  datatype Network = Network(ssid: string, security: string, password: string)

  function Read(qr: string): Option<Network> {
    if !("WIFI:" <= qr) then None
    else
      var fields := Fields(qr[5..]);
      var s, t, p := Find(fields, "S:"), Find(fields, "T:"), Find(fields, "P:");
      if s.None? || t.None? || p.None? then None else Some(Network(s.value, t.value, p.value))
  }

  lemma {:induction false} UnescapeInverts(s: string)
    ensures Unescape(Escape(s)) == s
  {
    if s != [] {
      UnescapeInverts(s[1..]);
      var e := Escape(s);
      if IsSpecial(s[0]) {
        assert e[0] == BACKSLASH && e[1] == s[0] && e[2..] == Escape(s[1..]);
      } else {
        assert e[0] == s[0] && e[1..] == Escape(s[1..]);
      }
    }
  }

  /** An escaped text never ends a field, the semicolon behind it does. */
  lemma {:induction false} EscapedIsOneField(s: string, t: string)
    ensures TakeField(Escape(s) + ";" + t) == (Escape(s), t)
  {
    var all := Escape(s) + ";" + t;
    if s == [] {
      assert all[1..] == t;
    } else {
      EscapedIsOneField(s[1..], t);
      var rest := Escape(s[1..]) + ";" + t;
      if IsSpecial(s[0]) {
        assert all[0] == BACKSLASH && all[..2] == [BACKSLASH, s[0]] && all[2..] == rest;
      } else {
        assert all[0] == s[0] && all[1..] == rest;
      }
    }
  }

  /** A key of ordinary characters in front of a text belongs to its field. */
  lemma KeyedField(a: char, s: string, t: string)
    requires a != ';' && a != BACKSLASH
    ensures TakeField([a, ':'] + Escape(s) + ";" + t) == ([a, ':'] + Escape(s), t)
  {
    hide Escape;
    var inner := Escape(s) + ";" + t;
    EscapedIsOneField(s, t);
    assert ([':'] + inner)[1..] == inner;
    var all := [a, ':'] + Escape(s) + ";" + t;
    assert all == [a, ':'] + inner && all[1..] == [':'] + inner;
    assert [a] + ([':'] + Escape(s)) == [a, ':'] + Escape(s);
  }

  lemma FieldsStep(a: char, s: string, t: string)
    requires a != ';' && a != BACKSLASH
    ensures Fields([a, ':'] + Escape(s) + ";" + t) == [[a, ':'] + Escape(s)] + Fields(t)
  {
    hide TakeField, EscapeSet;
    KeyedField(a, s, t);
  }

  lemma {:induction false} PlainText(s: string)
    requires forall i :: 0 <= i < |s| ==> !IsSpecial(s[i])
    ensures Escape(s) == s
  {
    if s != [] {
      PlainText(s[1..]);
    }
  }

  lemma PayloadFields(ssid: string, password: string)
    ensures "WIFI:" <= Payload(ssid, password)
    ensures Fields(Payload(ssid, password)[5..]) == ["S:" + Escape(ssid), "T:" + Escape("WPA"), "P:" + Escape(password)]
  {
    hide Escape;
    PlainText("WPA");
    var tail := "P:" + Escape(password) + ";" + ";";
    var middle := "T:" + Escape("WPA") + ";" + tail;
    var all := "S:" + Escape(ssid) + ";" + middle;
    assert Payload(ssid, password) == "WIFI:" + all;
    assert Payload(ssid, password)[5..] == all;
    FieldsStep('S', ssid, middle);
    FieldsStep('T', "WPA", tail);
    FieldsStep('P', password, ";");
    assert TakeField(";") == ("", "");
    assert Fields(";") == [];
  }

  /** And besides the fields there is nothing but the marks that separate them. */
  lemma PayloadLength(ssid: string, password: string)
    ensures |Payload(ssid, password)| == |Escape(ssid)| + |Escape(password)| + |"WIFI:S:;T:WPA;P:;;"|
  {
    hide Escape;
  }

  /** Escaping goes by characters: a backslash, a semicolon, a comma, a colon and a quotation
      mark get a backslash in front, and no other character changes. */
  lemma {:induction false} EscapeGoesByCharacters(s: string, t: string)
    ensures Escape(s + t) == Escape(s) + Escape(t)
    ensures forall c: char :: Escape([c]) == if c == '\\' || c == ';' || c == ',' || c == ':' || c == '"' then ['\\', c]
                                             else [c]
  {
    if s == [] {
      assert s + t == t;
    } else {
      assert (s + t)[1..] == s[1..] + t;
      EscapeGoesByCharacters(s[1..], t);
    }
    forall c: char
      ensures Escape([c]) == if c == '\\' || c == ';' || c == ',' || c == ':' || c == '"' then ['\\', c] else [c]
    {
      assert [c][1..] == [];
    }
  }

  /** Main result: for all names and passwords, reading the payload gives both back. */
  lemma PayloadIsRead(ssid: string, password: string)
    ensures Read(Payload(ssid, password)) == Some(Network(ssid, "WPA", password))
  {
    hide Escape, Fields, Unescape, Payload;
    PayloadFields(ssid, password);
    var s, t, p := "S:" + Escape(ssid), "T:" + Escape("WPA"), "P:" + Escape(password);
    UnescapeInverts(ssid);
    UnescapeInverts("WPA");
    UnescapeInverts(password);
    assert s[0] == 'S' && t[0] == 'T' && p[0] == 'P';
    assert s[2..] == Escape(ssid) && t[2..] == Escape("WPA") && p[2..] == Escape(password);
    assert [s, t, p][1..] == [t, p] && [t, p][1..] == [p];
    assert Find([s, t, p], "S:") == Some(ssid);
    assert Find([p], "P:") == Some(password);
    assert Find([t, p], "T:") == Some("WPA") && Find([t, p], "P:") == Find([p], "P:");
  }
}
