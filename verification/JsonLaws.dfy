/** Which text `to_jsonb` writes, beyond what a reader makes of it: sorted names and not a character too many. */
module JsonLaws {
  import opened Text
  import opened Sorting
  import opened Json
  import opened JsonParser
  import opened Amount
  import opened Requests

  // ---- sort_keys=True -------------------------------------------------------------------

  /** One text comes before another: it is a proper prefix, or has the smaller character where they first differ. */
  ghost predicate Before(a: string, b: string) {
    exists k :: 0 <= k <= |a| && k <= |b| && FirstDifference(a, b, k)
  }

  ghost predicate FirstDifference(a: string, b: string, k: nat)
    requires k <= |a| && k <= |b|
  {
    && a[..k] == b[..k]
    && ((k == |a| && k < |b|) || (k < |a| && k < |b| && a[k] < b[k]))
  }

  /** In every object, at every depth, each name comes before the next. */
  ghost predicate NamesAscend(v: Value) {
    match v
    case Arr(items) => forall i | 0 <= i < |items| :: NamesAscend(items[i])
    case Obj(ms) =>
      && (forall i, j | 0 <= i < j < |ms| :: Before(ms[i].name, ms[j].name))
      && forall i | 0 <= i < |ms| :: NamesAscend(ms[i].value)
    case _ => true
  }

  lemma {:induction false} LessIsBefore(a: string, b: string)
    requires StringLess(a, b)
    ensures Before(a, b)
  {
    if a == [] || a[0] < b[0] {
      assert FirstDifference(a, b, 0);
    } else {
      LessIsBefore(a[1..], b[1..]);
      var k :| 0 <= k <= |a[1..]| && k <= |b[1..]| && FirstDifference(a[1..], b[1..], k);
      assert a[..k + 1] == [a[0]] + a[1..][..k] && b[..k + 1] == [b[0]] + b[1..][..k];
      assert FirstDifference(a, b, k + 1);
    }
  }

  /** The canonical form has its names in order at every depth. */
  lemma {:induction false} SortKeysAscend(v: Value)
    requires Valid(v)
    ensures NamesAscend(SortKeys(v))
    decreases v
  {
    match v
    case Arr(items) =>
      forall i | 0 <= i < |items| ensures NamesAscend(SortKeys(items[i])) {
        SortKeysAscend(items[i]);
      }
    case Obj(ms) =>
      var r := Sort(SortKeysIn(ms), NameLess);
      CanonicalMembers(ms);
      SortMembers(SortKeysIn(ms));
      forall m | m in ms ensures NamesAscend(Canonical(m).value) {
        SortKeysAscend(m.value);
      }
      forall i, j | 0 <= i < j < |r| ensures Before(r[i].name, r[j].name) {
        LessIsBefore(r[i].name, r[j].name);
      }
      forall i | 0 <= i < |r| ensures NamesAscend(r[i].value) {
        assert r[i] in SortKeysIn(ms);
      }
    case _ =>
  }

  /** Read back, the text of `to_jsonb` has its names in order at every depth. */
  lemma SortedText(v: Value)
    requires Valid(v)
    ensures Parse(ToJsonb(v)).Some? && NamesAscend(Parse(ToJsonb(v)).value)
  {
    RoundTrip(v);
    SortKeysAscend(v);
  }

  // ---- no shorter text ----------------------------------------------------------------------

  lemma EscapedChar(s: string)
    requires ReadEscape(s).Some?
    ensures |EscapeChar(ReadEscape(s).value.0)| + |ReadEscape(s).value.1| <= 1 + |s|
  {}

  /** A string takes at least its escaped characters and the closing quote. */
  lemma {:induction false} StringShortest(s: string)
    requires ReadString(s).Some?
    ensures |Escape(ReadString(s).value.0)| + 1 + |ReadString(s).value.1| <= |s|
    decreases |s|
  {
    if s[0] == '\\' {
      EscapedChar(s[1..]);
      var (c, rest) := ReadEscape(s[1..]).value;
      StringShortest(rest);
      EscapeCons(c, ReadString(rest).value.0);
    } else if s[0] != '\"' {
      StringShortest(s[1..]);
      EscapeCons(s[0], ReadString(s[1..]).value.0);
    }
  }

  lemma EscapeCons(c: char, x: string)
    ensures |Escape([c] + x)| == |EscapeChar(c)| + |Escape(x)|
  {
    assert ([c] + x)[1..] == x;
  }

  /** A number takes at least its digits. */
  lemma {:induction false} NatTextShortest(ds: string)
    requires AllDigits(ds) && ds != ""
    ensures |NatText(ReadNat(ds))| <= |ds|
  {
    var n := |ds| - 1;
    if n > 0 && ReadNat(ds) >= 10 {
      NatTextShortest(ds[..n]);
      assert ReadNat(ds) / 10 == ReadNat(ds[..n]);
    }
  }

  lemma NumberShortest(s: string)
    requires ReadNumber(s).Some?
    ensures |NatText(ReadNumber(s).value.0)| + |ReadNumber(s).value.1| <= |s|
  {
    NatTextShortest(s[..DigitRun(s)]);
  }

  lemma IntShortest(s: string)
    requires ReadInt(s).Some?
    ensures ReadInt(s).value.0.Int?
    ensures |Write(ReadInt(s).value.0)| + |ReadInt(s).value.1| <= |s|
  {
    NumberShortest(if s != [] && s[0] == '-' then s[1..] else s);
  }

  lemma NameShortest(s: string)
    requires ReadName(s).Some?
    ensures |Quote(ReadName(s).value.0)| + 1 + |ReadName(s).value.1| <= |s|
  {
    StringShortest(SkipSpace(s)[1..]);
  }

  /** Whatever a value is read from is at least as long as its compact text. */
  lemma {:induction false} ValueShortest(s: string)
    requires ReadValue(s).Some?
    ensures |Write(ReadValue(s).value.0)| + |ReadValue(s).value.1| <= |s|
    decreases |s|, 0
  {
    var t := SkipSpace(s);
    if "null" <= t || "true" <= t || "false" <= t {
    } else if t != [] && t[0] == '\"' {
      StringShortest(t[1..]);
    } else if t != [] && t[0] == '[' {
      var u := SkipSpace(t[1..]);
      if u == [] || u[0] != ']' {
        ItemsShortest(t[1..]);
      }
    } else if t != [] && t[0] == '{' {
      var u := SkipSpace(t[1..]);
      if u == [] || u[0] != '}' {
        MembersShortest(t[1..]);
      }
    } else {
      IntShortest(t);
    }
  }

  lemma {:induction false} ItemsShortest(s: string)
    requires ReadItems(s).Some?
    ensures ReadItems(s).value.0 != []
    ensures |WriteItems(ReadItems(s).value.0)| + |ReadItems(s).value.1| <= |s|
    decreases |s|, 1
  {
    ValueShortest(s);
    var (v, rest) := ReadValue(s).value;
    var u := SkipSpace(rest);
    if u[0] == ',' {
      ItemsShortest(u[1..]);
      var vs := ReadItems(u[1..]).value.0;
      assert ([v] + vs)[1..] == vs;
    }
  }

  lemma {:induction false} MembersShortest(s: string)
    requires ReadMembers(s).Some?
    ensures ReadMembers(s).value.0 != []
    ensures |WriteMembers(ReadMembers(s).value.0)| + |ReadMembers(s).value.1| <= |s|
    decreases |s|, 1
  {
    NameShortest(s);
    var (name, body) := ReadName(s).value;
    ValueShortest(body);
    var (v, rest) := ReadValue(body).value;
    var u := SkipSpace(rest);
    if u[0] == ',' {
      MembersShortest(u[1..]);
      var ms := ReadMembers(u[1..]).value.0;
      assert ([Member(name, v)] + ms)[1..] == ms;
    }
  }

  /** No text that is read as the same value is shorter: no white space, and only the escapes that are needed. */
  lemma ShortestText(v: Value, text: string)
    requires Valid(v) && Parse(text) == Parse(ToJsonb(v))
    ensures |ToJsonb(v)| <= |text|
  {
    RoundTrip(v);
    ValueShortest(text);
  }

  // ---- the hashed text ------------------------------------------------------------------------

  /** A text without quotes, backslashes and control characters stands for itself. */
  lemma {:induction false} PlainEscape(x: string)
    requires forall i | 0 <= i < |x| :: x[i] as int >= 0x20 && x[i] != '\"' && x[i] != '\\'
    ensures Escape(x) == x
  {
    if x != "" {
      PlainEscape(x[1..]);
      assert x == [x[0]] + x[1..];
    }
  }

  /** A member with a plain name. */
  function MemberText(m: Member): string {
    "\"" + m.name + "\":" + Write(m.value)
  }

  ghost predicate PlainName(m: Member) {
    forall i | 0 <= i < |m.name| :: m.name[i] as int >= 0x20 && m.name[i] != '\"' && m.name[i] != '\\'
  }

  lemma OneMember(m: Member, rest: seq<Member>)
    requires PlainName(m)
    ensures WriteMembers([m] + rest)
         == MemberText(m) + (if rest == [] then "}" else "," + WriteMembers(rest))
  {
    PlainEscape(m.name);
    assert ([m] + rest)[1..] == rest;
    assert Quote(m.name) + ":" == "\"" + m.name + "\":";
  }

  lemma FourMembersText(a: Member, b: Member, c: Member, d: Member)
    requires PlainName(a) && PlainName(b) && PlainName(c) && PlainName(d)
    ensures WriteMembers([a, b, c, d])
         == MemberText(a) + ("," + (MemberText(b) + ("," + (MemberText(c) + ("," + (MemberText(d) + "}"))))))
  {
    assert [a, b, c, d] == [a] + [b, c, d] && [b, c, d] == [b] + [c, d] && [c, d] == [c] + [d];
    assert [d] == [d] + [];
    OneMember(a, [b, c, d]);
    OneMember(b, [c, d]);
    OneMember(c, [d]);
    OneMember(d, []);
  }

  lemma AscendingFour(a: Member, b: Member, c: Member, d: Member)
    requires NameLess(a, b) && NameLess(b, c) && NameLess(c, d)
    ensures Ascending([a, b, c, d], NameLess) && DistinctNames([d, a, c, b])
  {
    StringLessTransitive(a.name, b.name, c.name);
    StringLessTransitive(b.name, c.name, d.name);
    StringLessTransitive(a.name, c.name, d.name);
    var s := [a, b, c, d];
    AscendingDistinct(s);
    assert s[0].name != s[1].name && s[0].name != s[2].name && s[0].name != s[3].name;
    assert s[1].name != s[2].name && s[1].name != s[3].name && s[2].name != s[3].name;
  }

  lemma SameFour(a: Member, b: Member, c: Member, d: Member)
    ensures forall m :: m in [d, a, c, b] <==> m in [a, b, c, d]
  {}

  lemma RequestNames()
    ensures StringLess("amount", "payload") && StringLess("payload", "status") && StringLess("status", "user_id")
  {}

  lemma PlainNames(a: Member, p: Member, t: Member, u: Member)
    requires a.name == "amount" && p.name == "payload" && t.name == "status" && u.name == "user_id"
    ensures PlainName(a) && PlainName(p) && PlainName(t) && PlainName(u)
    ensures NameLess(a, p) && NameLess(p, t) && NameLess(t, u)
  {
    RequestNames();
  }

  lemma RequestMembers(r: Request, a: Member, p: Member, t: Member, u: Member)
    requires a == Member("amount", Str(FixedText(r.amount)))
    requires p == Member("payload", SortKeys(PayloadOrEmpty(r.payload)))
    requires t == Member("status", Str(r.status)) && u == Member("user_id", Int(r.userId))
    ensures SortKeysIn(CanonicalRequest(r).members) == [u, a, t, p]
  {
    var ms := CanonicalRequest(r).members;
    assert SortKeysIn(ms)[0] == u && SortKeysIn(ms)[1] == a && SortKeysIn(ms)[2] == t && SortKeysIn(ms)[3] == p;
  }

  lemma SortedObject(ms: seq<Member>, a: Member, b: Member, c: Member, d: Member)
    requires SortKeysIn(ms) == [d, a, c, b] && NameLess(a, b) && NameLess(b, c) && NameLess(c, d)
    ensures SortKeys(Obj(ms)) == Obj([a, b, c, d])
  {
    NameLessIsOrder();
    AscendingFour(a, b, c, d);
    SortMembers(SortKeysIn(ms));
    SameFour(a, b, c, d);
    AscendingUnique(Sort(SortKeysIn(ms), NameLess), [a, b, c, d], NameLess);
  }

  lemma Flat(a: string, b: string, c: string, d: string)
    ensures "{" + (a + ("," + (b + ("," + (c + ("," + (d + "}"))))))) == "{" + a + "," + b + "," + c + "," + d + "}"
  {}

  lemma ObjectText(a: Member, b: Member, c: Member, d: Member)
    requires PlainName(a) && PlainName(b) && PlainName(c) && PlainName(d)
    ensures Write(Obj([a, b, c, d]))
         == "{" + MemberText(a) + "," + MemberText(b) + "," + MemberText(c) + "," + MemberText(d) + "}"
  {
    FourMembersText(a, b, c, d);
    Flat(MemberText(a), MemberText(b), MemberText(c), MemberText(d));
  }

  /** The text that is hashed: the four parts of the request under their names, in order and without spaces. */
  lemma HashedText(env: Env, r: Request)
    ensures RequestHash(env, r)
         == env.digest("{" + MemberText(Member("amount", Str(FixedText(r.amount))))
                       + "," + MemberText(Member("payload", SortKeys(PayloadOrEmpty(r.payload))))
                       + "," + MemberText(Member("status", Str(r.status)))
                       + "," + MemberText(Member("user_id", Int(r.userId))) + "}")
  {
    var a, p := Member("amount", Str(FixedText(r.amount))), Member("payload", SortKeys(PayloadOrEmpty(r.payload)));
    var t, u := Member("status", Str(r.status)), Member("user_id", Int(r.userId));
    RequestMembers(r, a, p, t, u);
    PlainNames(a, p, t, u);
    SortedObject(CanonicalRequest(r).members, a, p, t, u);
    ObjectText(a, p, t, u);
  }
}
