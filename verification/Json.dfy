/** JSON values and the canonical serializer of `to_jsonb`. */
module Json {
  import opened Wrappers
  import opened Text
  import opened Sorting

  /** What `to_jsonb` is given. An object keeps its members in insertion order, as a Python dict does. */
  datatype Value =
    | Null
    | Bool(b: bool)
    | Int(i: int)
    | Str(s: string)
    | Arr(items: seq<Value>)
    | Obj(members: seq<Member>)

  datatype Member = Member(name: string, value: Value)

  ghost predicate DistinctNames(ms: seq<Member>) {
    forall i, j | 0 <= i < j < |ms| :: ms[i].name != ms[j].name
  }

  /** A Python dict holds each key once, at every depth. */
  ghost predicate Valid(v: Value) {
    match v
    case Arr(items) => forall i | 0 <= i < |items| :: Valid(items[i])
    case Obj(members) =>
      && DistinctNames(members)
      && forall i | 0 <= i < |members| :: Valid(members[i].value)
    case _ => true
  }

  /** A dict: the members of a valid object. */
  type Dict = ms: seq<Member> | Valid(Obj(ms)) witness []

  function Names(ms: seq<Member>): set<string> {
    set m | m in ms :: m.name
  }

  /** Equality of values up to the order of object members, at every depth. */
  ghost predicate Same(a: Value, b: Value) {
    match a
    case Arr(xs) =>
      && b.Arr? && |xs| == |b.items|
      && forall i | 0 <= i < |xs| :: Same(xs[i], b.items[i])
    case Obj(ms) =>
      && b.Obj? && Names(ms) == Names(b.members)
      && forall m, n | m in ms && n in b.members && m.name == n.name :: Same(m.value, n.value)
    case _ => a == b
  }

  // ---- sort_keys=True -------------------------------------------------------

  predicate NameLess(m: Member, n: Member) {
    StringLess(m.name, n.name)
  }

  /** The value with the members of every object sorted by name. */
  function SortKeys(v: Value): (c: Value)
    decreases v, 1
  {
    match v
    case Arr(items) => Arr(SortKeysAll(items))
    case Obj(members) => Obj(Sort(SortKeysIn(members), NameLess))
    case _ => v
  }

  function SortKeysAll(items: seq<Value>): (r: seq<Value>)
    ensures |r| == |items|
    ensures forall i | 0 <= i < |items| :: r[i] == SortKeys(items[i])
    decreases items, 0
  {
    if items == [] then [] else [SortKeys(items[0])] + SortKeysAll(items[1..])
  }

  function SortKeysIn(members: seq<Member>): (r: seq<Member>)
    ensures |r| == |members|
    ensures forall i | 0 <= i < |members| ::
              r[i].name == members[i].name && r[i].value == SortKeys(members[i].value)
    decreases members, 0
  {
    if members == [] then []
    else [Member(members[0].name, SortKeys(members[0].value))] + SortKeysIn(members[1..])
  }

  // ---- separators=(",", ":") and string escapes ------------------------------

  /** The escape of one character with `ensure_ascii=False`. */
  function EscapeChar(c: char): (s: string)
    ensures |s| > 0
  {
    if c == '\"' then "\\\""
    else if c == '\\' then "\\\\"
    else if c as int == 8 then "\\b"
    else if c == '\t' then "\\t"
    else if c == '\n' then "\\n"
    else if c as int == 12 then "\\f"
    else if c == '\r' then "\\r"
    else if c as int < 0x20 then "\\u00" + [HexDigit(c as int / 16), HexDigit(c as int % 16)]
    else [c]
  }

  function Escape(s: string): string {
    if s == [] then "" else EscapeChar(s[0]) + Escape(s[1..])
  }

  function Quote(s: string): string {
    "\"" + Escape(s) + "\""
  }

  /** Compact text of a value, members in the order they stand. */
  function Write(v: Value): (t: string)
    ensures |t| > 0
    decreases v, 1
  {
    match v
    case Null => "null"
    case Bool(b) => if b then "true" else "false"
    case Int(i) => IntText(i)
    case Str(s) => Quote(s)
    case Arr(items) => if items == [] then "[]" else "[" + WriteItems(items)
    case Obj(members) => if members == [] then "{}" else "{" + WriteMembers(members)
  }

  /** The items with their separators and the closing bracket. */
  function WriteItems(items: seq<Value>): string
    requires items != []
    decreases items, 0
  {
    Write(items[0]) + (if |items| == 1 then "]" else "," + WriteItems(items[1..]))
  }

  /** The members with their separators and the closing brace. */
  function WriteMembers(members: seq<Member>): string
    requires members != []
    decreases members, 0
  {
    Quote(members[0].name) + ":" + Write(members[0].value)
    + (if |members| == 1 then "}" else "," + WriteMembers(members[1..]))
  }

  /** `to_jsonb`. */
  function ToJsonb(v: Value): string {
    Write(SortKeys(v))
  }

  /** The value of the first member with the given name. */
  function Lookup(ms: seq<Member>, name: string): Option<Value> {
    if ms == [] then None
    else if ms[0].name == name then Some(ms[0].value)
    else Lookup(ms[1..], name)
  }

  function Field(v: Value, name: string): Option<Value> {
    if v.Obj? then Lookup(v.members, name) else None
  }

  // ---- canonical form ---------------------------------------------------------

  lemma NameLessIsOrder()
    ensures StrictOrder(NameLess)
  {
    forall m ensures !NameLess(m, m) {
      StringLessIrreflexive(m.name);
    }
    forall m, n, o | NameLess(m, n) && NameLess(n, o) ensures NameLess(m, o) {
      StringLessTransitive(m.name, n.name, o.name);
    }
  }

  lemma DistinctComparable(ms: seq<Member>)
    requires DistinctNames(ms)
    ensures Comparable(ms, NameLess)
  {
    forall i, j | 0 <= i < j < |ms| ensures NameLess(ms[i], ms[j]) || NameLess(ms[j], ms[i]) {
      StringLessTotal(ms[i].name, ms[j].name);
    }
  }

  /** Sorting the members of a dict keeps the members and makes the names ascend. */
  lemma SortMembers(ms: seq<Member>)
    requires DistinctNames(ms)
    ensures Ascending(Sort(ms, NameLess), NameLess)
    ensures forall m :: m in Sort(ms, NameLess) <==> m in ms
  {
    NameLessIsOrder();
    DistinctComparable(ms);
    SortAscending(ms, NameLess);
    SameElements(Sort(ms, NameLess), ms);
  }

  ghost function Canonical(m: Member): Member {
    Member(m.name, SortKeys(m.value))
  }

  lemma {:induction false} CanonicalMembers(ms: seq<Member>)
    ensures forall m | m in ms :: Canonical(m) in SortKeysIn(ms)
    ensures forall c | c in SortKeysIn(ms) :: exists m :: m in ms && c == Canonical(m)
    ensures Names(SortKeysIn(ms)) == Names(ms)
    ensures DistinctNames(ms) ==> DistinctNames(SortKeysIn(ms))
  {
    var cs := SortKeysIn(ms);
    forall i | 0 <= i < |ms| ensures cs[i] == Canonical(ms[i]) {}
    forall m | m in ms ensures Canonical(m) in cs {
      var i :| 0 <= i < |ms| && ms[i] == m;
      assert cs[i] == Canonical(m);
    }
    forall c | c in cs ensures exists m :: m in ms && c == Canonical(m) {
      var i :| 0 <= i < |cs| && cs[i] == c;
      assert c == Canonical(ms[i]);
    }
    forall name | name in Names(ms) ensures name in Names(cs) {
      var m :| m in ms && m.name == name;
      assert Canonical(m) in cs;
    }
  }

  lemma MemberOf(ms: seq<Member>, name: string) returns (m: Member)
    requires name in Names(ms)
    ensures m in ms && m.name == name
  {
    m :| m in ms && m.name == name;
  }

  lemma OnePerName(ms: seq<Member>, m: Member, n: Member)
    requires DistinctNames(ms) && m in ms && n in ms && m.name == n.name
    ensures m == n
  {}

  /** One object form: every canonical member of one object is a canonical member of the other. */
  lemma FormsAgree(ms: seq<Member>, ns: seq<Member>)
    requires DistinctNames(ms) && DistinctNames(ns)
    requires forall m | m in ms :: Canonical(m) in SortKeysIn(ns)
    requires forall n | n in ns :: Canonical(n) in SortKeysIn(ms)
    ensures SortKeys(Obj(ms)) == SortKeys(Obj(ns))
  {
    CanonicalMembers(ms);
    CanonicalMembers(ns);
    var cs, ds := SortKeysIn(ms), SortKeysIn(ns);
    SortMembers(cs);
    SortMembers(ds);
    NameLessIsOrder();
    AscendingUnique(Sort(cs, NameLess), Sort(ds, NameLess), NameLess);
  }

  /** Values that are the same up to member order have one canonical form. */
  lemma {:induction false} SameGivesOneForm(a: Value, b: Value)
    requires Valid(a) && Valid(b) && Same(a, b)
    ensures SortKeys(a) == SortKeys(b)
    decreases a
  {
    match a
    case Arr(xs) =>
      forall i | 0 <= i < |xs| ensures SortKeys(xs[i]) == SortKeys(b.items[i]) {
        SameGivesOneForm(xs[i], b.items[i]);
      }
      assert SortKeysAll(xs) == SortKeysAll(b.items);
    case Obj(ms) =>
      var ns := b.members;
      forall m, n | m in ms && n in ns && m.name == n.name ensures Canonical(m) == Canonical(n) {
        SameGivesOneForm(m.value, n.value);
      }
      CanonicalMembers(ms);
      CanonicalMembers(ns);
      forall m | m in ms ensures Canonical(m) in SortKeysIn(ns) {
        assert m.name in Names(ms);
        var n := MemberOf(ns, m.name);
      }
      forall n | n in ns ensures Canonical(n) in SortKeysIn(ms) {
        assert n.name in Names(ns);
        var m := MemberOf(ms, n.name);
      }
      FormsAgree(ms, ns);
    case _ =>
  }

  /** Matching members of two objects with one form have one form. */
  lemma MatchingForms(ms: seq<Member>, ns: seq<Member>, m: Member, n: Member)
    requires DistinctNames(ms) && DistinctNames(ns)
    requires SortKeys(Obj(ms)) == SortKeys(Obj(ns))
    requires m in ms && n in ns && m.name == n.name
    ensures SortKeys(m.value) == SortKeys(n.value)
  {
    CanonicalMembers(ms);
    CanonicalMembers(ns);
    SortMembers(SortKeysIn(ms));
    SortMembers(SortKeysIn(ns));
    assert Canonical(m) in SortKeysIn(ns);
    assert Canonical(n) in SortKeysIn(ns);
    OnePerName(SortKeysIn(ns), Canonical(m), Canonical(n));
  }

  lemma NamesOfForm(ms: seq<Member>)
    requires DistinctNames(ms)
    ensures Names(Sort(SortKeysIn(ms), NameLess)) == Names(ms)
  {
    CanonicalMembers(ms);
    SortMembers(SortKeysIn(ms));
  }

  /** Values with one canonical form are the same up to member order. */
  lemma {:induction false} OneFormGivesSame(a: Value, b: Value)
    requires Valid(a) && Valid(b) && SortKeys(a) == SortKeys(b)
    ensures Same(a, b)
    decreases a
  {
    match a
    case Arr(xs) =>
      forall i | 0 <= i < |xs| ensures Same(xs[i], b.items[i]) {
        assert SortKeysAll(xs)[i] == SortKeysAll(b.items)[i];
        OneFormGivesSame(xs[i], b.items[i]);
      }
    case Obj(ms) =>
      var ns := b.members;
      NamesOfForm(ms);
      NamesOfForm(ns);
      forall m, n | m in ms && n in ns && m.name == n.name ensures Same(m.value, n.value) {
        MatchingForms(ms, ns, m, n);
        OneFormGivesSame(m.value, n.value);
      }
    case _ =>
  }

  /** The members of an ascending object carry distinct names. */
  lemma AscendingDistinct(ms: seq<Member>)
    requires Ascending(ms, NameLess)
    ensures DistinctNames(ms)
  {
    forall i, j | 0 <= i < j < |ms| ensures ms[i].name != ms[j].name {
      StringLessIrreflexive(ms[i].name);
    }
  }

  /** The canonical form is itself a valid value and denotes the same value. */
  lemma {:induction false} SortKeysValid(v: Value)
    requires Valid(v)
    ensures Valid(SortKeys(v)) && Same(v, SortKeys(v))
    decreases v
  {
    match v
    case Arr(items) =>
      forall i | 0 <= i < |items| ensures Valid(SortKeys(items[i])) && Same(items[i], SortKeys(items[i])) {
        SortKeysValid(items[i]);
      }
    case Obj(ms) =>
      forall m | m in ms ensures Valid(Canonical(m).value) && Same(m.value, Canonical(m).value) {
        SortKeysValid(m.value);
      }
      var r := Sort(SortKeysIn(ms), NameLess);
      CanonicalMembers(ms);
      SortMembers(SortKeysIn(ms));
      AscendingDistinct(r);
      NamesOfForm(ms);
      forall i | 0 <= i < |r| ensures Valid(r[i].value) {
        assert r[i] in SortKeysIn(ms);
      }
      forall m, n | m in ms && n in r && m.name == n.name ensures Same(m.value, n.value) {
        OnePerName(SortKeysIn(ms), Canonical(m), n);
      }
    case _ =>
  }

  /** `to_jsonb` gives one text to two values exactly when they are the same up to member order. */
  lemma FormsDecideSameness(a: Value, b: Value)
    requires Valid(a) && Valid(b)
    ensures SortKeys(a) == SortKeys(b) <==> Same(a, b)
  {
    if SortKeys(a) == SortKeys(b) {
      OneFormGivesSame(a, b);
    }
    if Same(a, b) {
      SameGivesOneForm(a, b);
    }
  }

  lemma SameTransitive(a: Value, b: Value, c: Value)
    requires Valid(a) && Valid(b) && Valid(c) && Same(a, b) && Same(b, c)
    ensures Same(a, c)
  {
    SameGivesOneForm(a, b);
    SameGivesOneForm(b, c);
    OneFormGivesSame(a, c);
  }

  lemma AlignedMembers(ms: seq<Member>, ns: seq<Member>, m: Member, n: Member)
    requires DistinctNames(ms) && |ms| == |ns|
    requires forall i | 0 <= i < |ms| :: ms[i].name == ns[i].name
    requires forall i | 0 <= i < |ms| :: Same(ms[i].value, ns[i].value)
    requires m in ms && n in ns && m.name == n.name
    ensures Same(m.value, n.value)
  {
    var i :| 0 <= i < |ms| && ms[i] == m;
    var j :| 0 <= j < |ns| && ns[j] == n;
    assert ms[i].name == ms[j].name;
  }

  lemma AlignedGivesSame(ms: seq<Member>, ns: seq<Member>)
    requires DistinctNames(ms) && |ms| == |ns|
    requires forall i | 0 <= i < |ms| :: ms[i].name == ns[i].name
    requires forall i | 0 <= i < |ms| :: Same(ms[i].value, ns[i].value)
    ensures Same(Obj(ms), Obj(ns))
  {
    AlignedNames(ms, ns);
    AlignedNames(ns, ms);
    forall m, n | m in ms && n in ns && m.name == n.name ensures Same(m.value, n.value) {
      AlignedMembers(ms, ns, m, n);
    }
  }

  lemma SameGivesAligned(ms: seq<Member>, ns: seq<Member>, i: nat)
    requires |ms| == |ns| && i < |ms| && ms[i].name == ns[i].name && Same(Obj(ms), Obj(ns))
    ensures Same(ms[i].value, ns[i].value)
  {
    assert ms[i] in ms && ns[i] in ns;
  }

  lemma AlignedNames(ms: seq<Member>, ns: seq<Member>)
    requires |ms| == |ns|
    requires forall i | 0 <= i < |ms| :: ms[i].name == ns[i].name
    ensures Names(ms) <= Names(ns)
  {
    forall name | name in Names(ms) ensures name in Names(ns) {
      var m :| m in ms && m.name == name;
      var i :| 0 <= i < |ms| && ms[i] == m;
      assert ns[i] in ns;
    }
  }
}
