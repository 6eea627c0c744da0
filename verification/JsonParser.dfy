/** A JSON reader (RFC 8259), written without reference to the serializer, and the round trip. */
module JsonParser {
  import opened Wrappers
  import opened Text
  import opened Json

  // ---- reader -----------------------------------------------------------------

  predicate IsSpace(c: char) {
    c == ' ' || c == '\t' || c == '\n' || c == '\r'
  }

  function SkipSpace(s: string): (r: string)
    ensures |r| <= |s|
  {
    if s != [] && IsSpace(s[0]) then SkipSpace(s[1..]) else s
  }

  /** The code unit of four hexadecimal digits. */
  function ReadHex4(s: string): (r: Option<nat>)
    ensures r.Some? ==> |s| >= 4 && r.value < 0x1_0000
  {
    if |s| < 4 then None
    else
      match (HexValue(s[0]), HexValue(s[1]), HexValue(s[2]), HexValue(s[3]))
      case (Some(a), Some(b), Some(c), Some(d)) => Some(a * 4096 + b * 256 + c * 16 + d)
      case _ => None
  }

  /** The escape after a backslash: the character it stands for and the text after it. */
  function ReadEscape(s: string): (r: Option<(char, string)>)
    ensures r.Some? ==> |r.value.1| < |s|
  {
    if s == [] then None
    else if s[0] == '\"' || s[0] == '\\' || s[0] == '/' then Some((s[0], s[1..]))
    else if s[0] == 'b' then Some((8 as char, s[1..]))
    else if s[0] == 'f' then Some((12 as char, s[1..]))
    else if s[0] == 'n' then Some(('\n', s[1..]))
    else if s[0] == 'r' then Some(('\r', s[1..]))
    else if s[0] == 't' then Some(('\t', s[1..]))
    else if s[0] != 'u' then None
    else
      match ReadHex4(s[1..])
      case None => None
      case Some(u) =>
        if u < 0xD800 || 0xE000 <= u then Some((u as char, s[5..]))
        else ReadLowSurrogate(u, s[5..])
  }

  /** The second half of a surrogate pair. */
  function ReadLowSurrogate(high: nat, s: string): (r: Option<(char, string)>)
    ensures r.Some? ==> |r.value.1| < |s|
  {
    if 0xD800 <= high < 0xDC00 && |s| >= 6 && s[0] == '\\' && s[1] == 'u' then
      match ReadHex4(s[2..])
      case Some(low) =>
        if 0xDC00 <= low < 0xE000
        then Some(((0x1_0000 + (high - 0xD800) * 0x400 + (low - 0xDC00)) as char, s[6..]))
        else None
      case None => None
    else None
  }

  function Cons(c: char, r: Option<(string, string)>): Option<(string, string)> {
    match r
    case None => None
    case Some((t, rest)) => Some(([c] + t, rest))
  }

  /** The characters up to the closing quote, and the text after it. */
  function ReadString(s: string): (r: Option<(string, string)>)
    ensures r.Some? ==> |r.value.1| < |s|
    decreases |s|
  {
    if s == [] || s[0] as int < 0x20 then None
    else if s[0] == '\"' then Some(("", s[1..]))
    else if s[0] == '\\' then
      match ReadEscape(s[1..])
      case None => None
      case Some((c, rest)) => Cons(c, ReadString(rest))
    else Cons(s[0], ReadString(s[1..]))
  }

  /** True where a JSON integer may end: no digit, fraction or exponent follows. */
  predicate EndsNumber(s: string) {
    s == [] || !(IsDigit(s[0]) || s[0] == '.' || s[0] == 'e' || s[0] == 'E')
  }

  function ReadNumber(s: string): (r: Option<(nat, string)>)
    ensures r.Some? ==> |r.value.1| < |s|
  {
    var n := DigitRun(s);
    if n == 0 || (n > 1 && s[0] == '0') || !EndsNumber(s[n..]) then None
    else Some((ReadNat(s[..n]), s[n..]))
  }

  function ReadInt(s: string): (r: Option<(Value, string)>)
    ensures r.Some? ==> |r.value.1| < |s|
  {
    if s != [] && s[0] == '-' then
      match ReadNumber(s[1..])
      case None => None
      case Some((n, rest)) => Some((Int(0 - n), rest))
    else
      match ReadNumber(s)
      case None => None
      case Some((n, rest)) => Some((Int(n), rest))
  }

  /** A value at the front of the text, after white space, and the text after it. */
  function ReadValue(s: string): (r: Option<(Value, string)>)
    ensures r.Some? ==> |r.value.1| < |s|
    decreases |s|, 0
  {
    var t := SkipSpace(s);
    if "null" <= t then Some((Null, t[4..]))
    else if "true" <= t then Some((Bool(true), t[4..]))
    else if "false" <= t then Some((Bool(false), t[5..]))
    else if t != [] && t[0] == '\"' then
      match ReadString(t[1..])
      case None => None
      case Some((x, rest)) => Some((Str(x), rest))
    else if t != [] && t[0] == '[' then
      var u := SkipSpace(t[1..]);
      if u != [] && u[0] == ']' then Some((Arr([]), u[1..]))
      else
        match ReadItems(t[1..])
        case None => None
        case Some((items, rest)) => Some((Arr(items), rest))
    else if t != [] && t[0] == '{' then
      var u := SkipSpace(t[1..]);
      if u != [] && u[0] == '}' then Some((Obj([]), u[1..]))
      else
        match ReadMembers(t[1..])
        case None => None
        case Some((members, rest)) => Some((Obj(members), rest))
    else ReadInt(t)
  }

  /** One or more items and the closing bracket. */
  function ReadItems(s: string): (r: Option<(seq<Value>, string)>)
    ensures r.Some? ==> |r.value.1| < |s|
    decreases |s|, 1
  {
    match ReadValue(s)
    case None => None
    case Some((v, rest)) =>
      var u := SkipSpace(rest);
      if u != [] && u[0] == ']' then Some(([v], u[1..]))
      else if u != [] && u[0] == ',' then
        match ReadItems(u[1..])
        case None => None
        case Some((vs, end)) => Some(([v] + vs, end))
      else None
  }

  /** A member name, its colon, and the text after them. */
  function ReadName(s: string): (r: Option<(string, string)>)
    ensures r.Some? ==> |r.value.1| < |s|
  {
    var t := SkipSpace(s);
    if t == [] || t[0] != '\"' then None
    else
      match ReadString(t[1..])
      case None => None
      case Some((name, rest)) =>
        var u := SkipSpace(rest);
        if u != [] && u[0] == ':' then Some((name, u[1..])) else None
  }

  /** One or more members and the closing brace. */
  function ReadMembers(s: string): (r: Option<(seq<Member>, string)>)
    ensures r.Some? ==> |r.value.1| < |s|
    decreases |s|, 1
  {
    match ReadName(s)
    case None => None
    case Some((name, body)) =>
      match ReadValue(body)
      case None => None
      case Some((v, rest)) =>
        var u := SkipSpace(rest);
        if u != [] && u[0] == '}' then Some(([Member(name, v)], u[1..]))
        else if u != [] && u[0] == ',' then
          match ReadMembers(u[1..])
          case None => None
          case Some((ms, end)) => Some(([Member(name, v)] + ms, end))
        else None
  }

  /** The value a whole text denotes. */
  function Parse(s: string): Option<Value> {
    match ReadValue(s)
    case None => None
    case Some((v, rest)) => if SkipSpace(rest) == [] then Some(v) else None
  }

  // ---- strings ------------------------------------------------------------------

  lemma ReadControl(c: char, tail: string)
    requires c as int < 0x20
    ensures ReadEscape("u00" + [HexDigit(c as int / 16), HexDigit(c as int % 16)] + tail) == Some((c, tail))
  {
    var h, l := HexDigit(c as int / 16), HexDigit(c as int % 16);
    HexDigitValue(c as int / 16);
    HexDigitValue(c as int % 16);
    var s := "u00" + [h, l] + tail;
    assert s[1..] == ['0', '0', h, l] + tail;
    assert s[5..] == tail;
    assert ReadHex4(s[1..]) == Some(c as int);
  }

  /** Reading an escaped character yields the character and continues after it. */
  lemma ReadEscapedChar(c: char, tail: string)
    ensures ReadString(EscapeChar(c) + tail) == Cons(c, ReadString(tail))
  {
    var e := EscapeChar(c);
    var s := e + tail;
    if |e| == 1 {
      assert s[1..] == tail;
    } else if |e| == 2 {
      assert s[1..] == [e[1]] + tail;
      assert s[1..][1..] == tail;
    } else {
      ReadControl(c, tail);
      assert s[1..] == "u00" + [HexDigit(c as int / 16), HexDigit(c as int % 16)] + tail;
    }
  }

  lemma {:induction false} ReadEscaped(x: string, rest: string)
    ensures ReadString(Escape(x) + "\"" + rest) == Some((x, rest))
  {
    if x == [] {
      assert Escape(x) + "\"" + rest == "\"" + rest;
      assert ("\"" + rest)[1..] == rest;
    } else {
      var tail := Escape(x[1..]) + "\"" + rest;
      ReadEscaped(x[1..], rest);
      ReadEscapedChar(x[0], tail);
      assert Escape(x) + "\"" + rest == EscapeChar(x[0]) + tail;
      assert [x[0]] + x[1..] == x;
    }
  }

  lemma ReadQuoted(x: string, rest: string)
    ensures var s := Quote(x) + rest; s[0] == '\"' && ReadString(s[1..]) == Some((x, rest))
  {
    ReadEscaped(x, rest);
    var body := Escape(x) + "\"" + rest;
    assert Quote(x) + rest == "\"" + body;
    assert ("\"" + body)[1..] == body;
  }

  // ---- numbers --------------------------------------------------------------------

  lemma ReadNatText'(n: nat, rest: string)
    requires EndsNumber(rest)
    ensures ReadNumber(NatText(n) + rest) == Some((n, rest))
  {
    DigitRunOf(NatText(n), rest);
    ReadNatText(n);
  }

  lemma IntTextStarts(i: int)
    ensures IsDigit(IntText(i)[0]) || IntText(i)[0] == '-'
  {}

  lemma ReadUnsigned(n: nat, s: string, rest: string)
    requires s != [] && s[0] != '-' && ReadNumber(s) == Some((n, rest))
    ensures ReadInt(s) == Some((Int(n), rest))
  {}

  lemma ReadNegative(n: nat, s: string, rest: string)
    requires ReadNumber(s) == Some((n, rest))
    ensures ReadInt("-" + s) == Some((Int(0 - n), rest))
  {
    assert ("-" + s)[1..] == s;
  }

  lemma ReadIntText(i: int, rest: string)
    requires EndsNumber(rest)
    ensures ReadInt(IntText(i) + rest) == Some((Int(i), rest))
  {
    if i < 0 {
      ReadNatText'(-i, rest);
      ReadNegative(-i, NatText(-i) + rest, rest);
      assert IntText(i) + rest == "-" + (NatText(-i) + rest);
    } else {
      ReadNatText'(i, rest);
      assert (NatText(i) + rest)[0] == NatText(i)[0];
      ReadUnsigned(i, NatText(i) + rest, rest);
    }
  }

  // ---- values -----------------------------------------------------------------------

  /** A written value starts with neither white space nor a closing bracket or brace. */
  lemma WriteStarts(v: Value)
    ensures !IsSpace(Write(v)[0]) && Write(v)[0] != ']' && Write(v)[0] != '}'
  {
    if v.Int? {
      IntTextStarts(v.i);
    }
  }

  lemma ReadLiteral(v: Value, rest: string)
    requires v.Null? || v.Bool?
    ensures ReadValue(Write(v) + rest) == Some((v, rest))
  {
    var s := Write(v) + rest;
    assert SkipSpace(s) == s;
    match v
    case Null =>
      assert s[4..] == rest;
    case Bool(b) =>
      assert b ==> "true" <= s && s[4..] == rest;
      assert !b ==> "false" <= s && s[5..] == rest;
  }

  /** A text that opens with none of the literals is read by its first character. */
  lemma ReadByFirst(c: char, body: string)
    requires !IsSpace(c) && c != 'n' && c != 't' && c != 'f'
    ensures var s := [c] + body;
            && SkipSpace(s) == s && s[1..] == body
            && !("null" <= s) && !("true" <= s) && !("false" <= s)
  {
    var s := [c] + body;
    assert s[0] == c;
    assert "null"[0] == 'n' && "true"[0] == 't' && "false"[0] == 'f';
  }

  lemma ReadScalar(v: Value, rest: string)
    requires v.Int? || v.Str?
    requires EndsNumber(rest)
    ensures ReadValue(Write(v) + rest) == Some((v, rest))
  {
    var s := Write(v) + rest;
    assert s == [s[0]] + s[1..];
    if v.Int? {
      IntTextStarts(v.i);
      ReadIntText(v.i, rest);
    } else {
      ReadQuoted(v.s, rest);
    }
    ReadByFirst(s[0], s[1..]);
  }

  lemma ReadArray(body: string, items: seq<Value>, rest: string)
    requires body != [] && !IsSpace(body[0]) && body[0] != ']'
    requires ReadItems(body) == Some((items, rest))
    ensures ReadValue("[" + body) == Some((Arr(items), rest))
  {
    ReadByFirst('[', body);
  }

  lemma ReadObject(body: string, members: seq<Member>, rest: string)
    requires body != [] && !IsSpace(body[0]) && body[0] != '}'
    requires ReadMembers(body) == Some((members, rest))
    ensures ReadValue("{" + body) == Some((Obj(members), rest))
  {
    ReadByFirst('{', body);
  }

  lemma ReadEmpty(rest: string)
    ensures ReadValue("[]" + rest) == Some((Arr([]), rest))
    ensures ReadValue("{}" + rest) == Some((Obj([]), rest))
  {
    ReadByFirst('[', "]" + rest);
    ReadByFirst('{', "}" + rest);
    assert "[]" + rest == "[" + ("]" + rest);
    assert "{}" + rest == "{" + ("}" + rest);
    assert ("]" + rest)[1..] == rest && ("}" + rest)[1..] == rest;
  }

  lemma LastItem(s: string, v: Value, rest: string)
    requires ReadValue(s) == Some((v, "]" + rest))
    ensures ReadItems(s) == Some(([v], rest))
  {
    assert ("]" + rest)[1..] == rest;
  }

  lemma NextItem(s: string, v: Value, next: string, vs: seq<Value>, rest: string)
    requires ReadValue(s) == Some((v, "," + next)) && ReadItems(next) == Some((vs, rest))
    ensures ReadItems(s) == Some(([v] + vs, rest))
  {
    assert ("," + next)[1..] == next;
  }

  lemma LastMember(s: string, m: Member, body: string, rest: string)
    requires ReadName(s) == Some((m.name, body)) && ReadValue(body) == Some((m.value, "}" + rest))
    ensures ReadMembers(s) == Some(([m], rest))
  {
    assert ("}" + rest)[1..] == rest;
  }

  lemma NextMember(s: string, m: Member, body: string, next: string, ms: seq<Member>, rest: string)
    requires ReadName(s) == Some((m.name, body)) && ReadValue(body) == Some((m.value, "," + next))
    requires ReadMembers(next) == Some((ms, rest))
    ensures ReadMembers(s) == Some(([m] + ms, rest))
  {
    assert ("," + next)[1..] == next;
  }

  lemma WrittenArray(items: seq<Value>, rest: string)
    requires items != [] && ReadItems(WriteItems(items) + rest) == Some((items, rest))
    ensures ReadValue(Write(Arr(items)) + rest) == Some((Arr(items), rest))
  {
    var body := WriteItems(items) + rest;
    WriteStarts(items[0]);
    assert body[0] == Write(items[0])[0];
    ReadArray(body, items, rest);
    assert Write(Arr(items)) + rest == "[" + body;
  }

  lemma WrittenObject(members: seq<Member>, rest: string)
    requires members != [] && ReadMembers(WriteMembers(members) + rest) == Some((members, rest))
    ensures ReadValue(Write(Obj(members)) + rest) == Some((Obj(members), rest))
  {
    var body := WriteMembers(members) + rest;
    assert body[0] == Quote(members[0].name)[0] == '\"';
    ReadObject(body, members, rest);
    assert Write(Obj(members)) + rest == "{" + body;
  }

  lemma WrittenLastItem(v: Value, rest: string)
    requires ReadValue(Write(v) + ("]" + rest)) == Some((v, "]" + rest))
    ensures ReadItems(WriteItems([v]) + rest) == Some(([v], rest))
  {
    var s := Write(v) + ("]" + rest);
    assert WriteItems([v]) + rest == s;
    LastItem(s, v, rest);
  }

  lemma WrittenNextItem(v: Value, vs: seq<Value>, rest: string)
    requires vs != []
    requires var next := WriteItems(vs) + rest;
             && ReadValue(Write(v) + ("," + next)) == Some((v, "," + next))
             && ReadItems(next) == Some((vs, rest))
    ensures ReadItems(WriteItems([v] + vs) + rest) == Some(([v] + vs, rest))
  {
    var next := WriteItems(vs) + rest;
    var s := Write(v) + ("," + next);
    assert ([v] + vs)[1..] == vs;
    assert WriteItems([v] + vs) + rest == s;
    NextItem(s, v, next, vs, rest);
  }

  lemma WrittenLastMember(m: Member, rest: string)
    requires ReadValue(Write(m.value) + ("}" + rest)) == Some((m.value, "}" + rest))
    ensures ReadMembers(WriteMembers([m]) + rest) == Some(([m], rest))
  {
    var body := Write(m.value) + ("}" + rest);
    var s := Quote(m.name) + ":" + body;
    assert WriteMembers([m]) + rest == s;
    ReadWrittenName(m.name, body);
    LastMember(s, m, body, rest);
  }

  lemma MembersText(m: Member, ms: seq<Member>, rest: string)
    requires ms != []
    ensures WriteMembers([m] + ms) + rest
         == Quote(m.name) + ":" + (Write(m.value) + ("," + (WriteMembers(ms) + rest)))
  {
    assert ([m] + ms)[1..] == ms;
    var q, w, t := Quote(m.name) + ":", Write(m.value), WriteMembers(ms);
    assert WriteMembers([m] + ms) == q + w + ("," + t);
    assert q + w + ("," + t) + rest == q + (w + ("," + (t + rest)));
  }

  lemma WrittenNextMember(m: Member, ms: seq<Member>, rest: string)
    requires ms != []
    requires var next := WriteMembers(ms) + rest;
             && ReadValue(Write(m.value) + ("," + next)) == Some((m.value, "," + next))
             && ReadMembers(next) == Some((ms, rest))
    ensures ReadMembers(WriteMembers([m] + ms) + rest) == Some(([m] + ms, rest))
  {
    var next := WriteMembers(ms) + rest;
    var body := Write(m.value) + ("," + next);
    var s := Quote(m.name) + ":" + body;
    MembersText(m, ms, rest);
    ReadWrittenName(m.name, body);
    NextMember(s, m, body, next, ms, rest);
  }

  lemma ReadWrittenName(name: string, rest: string)
    ensures ReadName(Quote(name) + ":" + rest) == Some((name, rest))
  {
    var s := Quote(name) + ":" + rest;
    var tail := ":" + rest;
    assert s == Quote(name) + tail;
    ReadQuoted(name, tail);
    assert tail[1..] == rest;
  }

  /** Reading what the serializer wrote gives the value back and stops at its end. */
  lemma {:induction false} ReadWritten(v: Value, rest: string)
    requires EndsNumber(rest)
    ensures ReadValue(Write(v) + rest) == Some((v, rest))
    decreases v, 1
  {
    if v.Null? || v.Bool? {
      ReadLiteral(v, rest);
    } else if v.Int? || v.Str? {
      ReadScalar(v, rest);
    } else if v == Arr([]) || v == Obj([]) {
      ReadEmpty(rest);
    } else if v.Arr? {
      ReadWrittenItems(v.items, rest);
      WrittenArray(v.items, rest);
    } else {
      ReadWrittenMembers(v.members, rest);
      WrittenObject(v.members, rest);
    }
  }

  lemma {:induction false} ReadWrittenItems(items: seq<Value>, rest: string)
    requires items != []
    ensures ReadItems(WriteItems(items) + rest) == Some((items, rest))
    decreases items, 0
  {
    var v, vs := items[0], items[1..];
    assert [v] + vs == items;
    if vs == [] {
      assert items == [v];
      ReadWritten(v, "]" + rest);
      WrittenLastItem(v, rest);
    } else {
      ReadWritten(v, "," + (WriteItems(vs) + rest));
      ReadWrittenItems(vs, rest);
      WrittenNextItem(v, vs, rest);
    }
  }

  lemma {:induction false} ReadWrittenMembers(members: seq<Member>, rest: string)
    requires members != []
    ensures ReadMembers(WriteMembers(members) + rest) == Some((members, rest))
    decreases members, 0
  {
    var m, ms := members[0], members[1..];
    assert [m] + ms == members;
    if ms == [] {
      assert members == [m];
      ReadWritten(m.value, "}" + rest);
      WrittenLastMember(m, rest);
    } else {
      ReadWritten(m.value, "," + (WriteMembers(ms) + rest));
      ReadWrittenMembers(ms, rest);
      WrittenNextMember(m, ms, rest);
    }
  }

  // ---- the serializer's promises -------------------------------------------------------

  /** Parsing the output of `to_jsonb` gives the value back up to the order of object members. */
  lemma RoundTrip(v: Value)
    requires Valid(v)
    ensures Parse(ToJsonb(v)) == Some(SortKeys(v))
    ensures Valid(SortKeys(v)) && Same(v, SortKeys(v))
  {
    ReadWritten(SortKeys(v), "");
    assert ToJsonb(v) + "" == ToJsonb(v);
    SortKeysValid(v);
  }

  /** `to_jsonb` is stable and collision free: equal text exactly for equal values. */
  lemma TextDecidesSameness(a: Value, b: Value)
    requires Valid(a) && Valid(b)
    ensures ToJsonb(a) == ToJsonb(b) <==> Same(a, b)
  {
    RoundTrip(a);
    RoundTrip(b);
    FormsDecideSameness(a, b);
  }
}
