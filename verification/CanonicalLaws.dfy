// The rendering is canonical: it can be read back in only one way, so two
// documents render alike exactly when they are equal up to member order.
module CanonicalLaws {
  import opened Options
  import opened Text
  import opened Json
  import opened Order
  import opened Canonical

  // --- Reading back is unambiguous ----------------------------------------------------------

  /** What may follow a value inside a document. */
  predicate Stops(s: string) {
    s == "" || s[0] in ",]}"
  }

  /** An escaped character is never a bare quote, and tells which character it is. */
  lemma EscapeIsUnambiguous(c: char, d: char, x: string, y: string)
    requires Escaped(c) + x == Escaped(d) + y
    ensures c == d && x == y
  {
    var p, q := Escaped(c) + x, Escaped(d) + y;
    assert p[0] == q[0];
    if p[0] == '\\' {
      assert p[1] == q[1];
      if p[1] == 'u' {
        assert p[4] == q[4] && p[5] == q[5];
        HexIsUnambiguous(c as int / 16, d as int / 16);
        HexIsUnambiguous(c as int % 16, d as int % 16);
      }
    }
    assert |Escaped(c)| == |Escaped(d)|;
    assert p[|Escaped(c)|..] == x && q[|Escaped(d)|..] == y;
  }

  lemma HexIsUnambiguous(a: nat, b: nat)
    requires a < 16 && b < 16 && HexDigit(a) == HexDigit(b)
    ensures a == b
  {
  }

  /** The closing quote is the first bare one. */
  lemma TextStarts(s: string, x: string)
    ensures
      var p := EscapedAll(s) + "\"" + x;
      if s == "" then p[0] == '\"' && p[1..] == x
      else p[0] != '\"' && p == Escaped(s[0]) + (EscapedAll(s[1..]) + "\"" + x)
  {
    hide Escaped;
    if s == "" {
      assert (EscapedAll(s) + "\"" + x)[1..] == x;
    } else {
      EscapedStarts(s[0]);
      Regroup(Escaped(s[0]), EscapedAll(s[1..]), "\"", x);
    }
  }

  lemma EscapedStarts(c: char)
    ensures Escaped(c) != "" && Escaped(c)[0] != '\"'
  {
  }

  lemma Regroup(a: string, b: string, c: string, d: string)
    ensures a + b + c + d == a + (b + c + d)
    ensures a + b + c == a + (b + c)
  {
  }

  lemma {:induction false} TextIsUnambiguous(s: string, t: string, x: string, y: string)
    requires EscapedAll(s) + "\"" + x == EscapedAll(t) + "\"" + y
    ensures s == t && x == y
  {
    hide Escaped;
    var p, q := EscapedAll(s) + "\"" + x, EscapedAll(t) + "\"" + y;
    assert p[0] == q[0];
    TextStarts(s, x);
    TextStarts(t, y);
    if s != "" && t != "" {
      var p', q' := EscapedAll(s[1..]) + "\"" + x, EscapedAll(t[1..]) + "\"" + y;
      EscapeIsUnambiguous(s[0], t[0], p', q');
      TextIsUnambiguous(s[1..], t[1..], x, y);
      assert s == [s[0]] + s[1..] && t == [t[0]] + t[1..];
    }
  }

  lemma QuotedIsUnambiguous(s: string, t: string, x: string, y: string)
    requires Quoted(s) + x == Quoted(t) + y
    ensures s == t && x == y
  {
    var p, q := EscapedAll(s) + "\"" + x, EscapedAll(t) + "\"" + y;
    assert (Quoted(s) + x)[1..] == p && (Quoted(t) + y)[1..] == q;
    TextIsUnambiguous(s, t, x, y);
  }

  lemma NumTextChars(num: Num)
    requires num.Float? ==> IsFloatText(num.repr)
    ensures
      var s := NumText(num);
      s != "" && (IsDigit(s[0]) || s[0] == '-') && forall i :: 0 <= i < |s| ==> InNumber(s[i])
    ensures num.Int? ==> forall i :: 0 <= i < |NumText(num)| ==> NumText(num)[i] !in ".e"
  {
  }

  lemma DecimalIsUnambiguous(m: nat, n: nat)
    requires Decimal(m) == Decimal(n)
    ensures m == n
  {
  }

  lemma SignedParts(n: int)
    ensures SignedDecimal(n) != "" && (SignedDecimal(n)[0] == '-' <==> n < 0)
    ensures if n < 0 then SignedDecimal(n)[1..] == Decimal(-n) else SignedDecimal(n) == Decimal(n)
  {
  }

  lemma SignedIsUnambiguous(m: int, n: int)
    requires SignedDecimal(m) == SignedDecimal(n)
    ensures m == n
  {
    SignedParts(m);
    SignedParts(n);
    hide SignedDecimal, Decimal;
    if m < 0 {
      DecimalIsUnambiguous(-m, -n);
    } else {
      DecimalIsUnambiguous(m, n);
    }
  }

  /** How many characters at the front could belong to a number. */
  ghost function NumberRun(s: string): nat {
    if s == "" || !InNumber(s[0]) then 0 else 1 + NumberRun(s[1..])
  }

  lemma {:induction false} NumberRunIs(s: string, x: string)
    requires Stops(x) && forall i :: 0 <= i < |s| ==> InNumber(s[i])
    ensures NumberRun(s + x) == |s|
  {
    if s == "" {
      assert s + x == x;
    } else {
      NumberRunIs(s[1..], x);
      assert (s + x)[1..] == s[1..] + x;
    }
  }

  /** A number ends where its characters do. */
  lemma NumberIsUnambiguous(a: Num, b: Num, x: string, y: string)
    requires a.Float? ==> IsFloatText(a.repr)
    requires b.Float? ==> IsFloatText(b.repr)
    requires Stops(x) && Stops(y) && NumText(a) + x == NumText(b) + y
    ensures a == b && x == y
  {
    hide IsFloatText, SignedDecimal;
    NumTextChars(a);
    NumTextChars(b);
    var s, t := NumText(a), NumText(b);
    var p, q := s + x, t + y;
    NumberRunIs(s, x);
    NumberRunIs(t, y);
    assert p[..|s|] == s && q[..|t|] == t && p[|s|..] == x && q[|t|..] == y;
    if a.Int? && b.Int? {
      SignedIsUnambiguous(a.n, b.n);
    } else if a.Int? || b.Int? {
      FloatShows(if a.Float? then a.repr else b.repr);
    }
  }

  lemma FloatShows(s: string)
    requires IsFloatText(s)
    ensures exists i :: 0 <= i < |s| && s[i] in ".e"
  {
  }

  /** What a value starts with tells its kind. */
  function Kind(t: Tree): char {
    match t
    case TNull => 'n'
    case TBool(b) => if b then 't' else 'f'
    case TNumber(_) => '0'
    case TString(_) => '\"'
    case TArray(_) => '['
    case TObject(_) => '{'
  }

  function KindOf(c: char): char {
    if IsDigit(c) || c == '-' then '0' else c
  }

  lemma StartsWithKind(t: Tree)
    requires WellFormed(t)
    ensures Plain(t) != "" && KindOf(Plain(t)[0]) == Kind(t)
  {
  }

  /** A document inside a longer text can be read off it in only one way. */
  lemma {:induction false} ReadBack(a: Tree, b: Tree, x: string, y: string)
    requires WellFormed(a) && WellFormed(b) && Stops(x) && Stops(y) && Plain(a) + x == Plain(b) + y
    ensures a == b && x == y
    decreases a, 1
  {
    hide Quoted, NumText, PlainItems, PlainMembers;
    StartsWithKind(a);
    StartsWithKind(b);
    var p, q := Plain(a) + x, Plain(b) + y;
    assert p[0] == q[0] && p[0] == Plain(a)[0] && q[0] == Plain(b)[0];
    assert Kind(a) == Kind(b);
    match a {
      case TNull => assert p[4..] == x && q[4..] == y;
      case TBool(v) => assert p[if v then 4 else 5..] == x && q[if v then 4 else 5..] == y;
      case TNumber(num) => NumberIsUnambiguous(num, b.num, x, y);
      case TString(s) => QuotedIsUnambiguous(s, b.s, x, y);
      case TArray(items) =>
        Unwrap("[", PlainItems(items), "]", x, PlainItems(b.items), y);
        ReadBackItems(items, b.items, "]" + x, "]" + y);
        assert ("]" + x)[1..] == x && ("]" + y)[1..] == y;
      case TObject(ms) =>
        Unwrap("{", PlainMembers(ms), "}", x, PlainMembers(b.members), y);
        ReadBackMembers(a, ms, b.members, "}" + x, "}" + y);
        assert ("}" + x)[1..] == x && ("}" + y)[1..] == y;
    }
  }

  lemma Unwrap(open: string, s: string, close: string, x: string, t: string, y: string)
    requires |open| == 1 && (open + s + close) + x == (open + t + close) + y
    ensures s + (close + x) == t + (close + y)
  {
    assert ((open + s + close) + x)[1..] == s + (close + x);
    assert ((open + t + close) + y)[1..] == t + (close + y);
  }

  lemma Skip(c: string, s: string, x: string, t: string, y: string)
    requires |c| == 1 && (c + s) + x == (c + t) + y
    ensures s + x == t + y
  {
    assert ((c + s) + x)[1..] == s + x && ((c + t) + y)[1..] == t + y;
  }

  lemma {:induction false} ReadBackItems(items: seq<Tree>, others: seq<Tree>, x: string, y: string)
    requires forall i :: 0 <= i < |items| ==> WellFormed(items[i])
    requires forall i :: 0 <= i < |others| ==> WellFormed(others[i])
    requires x != "" && y != "" && x[0] == y[0] == ']' && PlainItems(items) + x == PlainItems(others) + y
    ensures items == others && x == y
    decreases items, 1
  {
    hide Plain, PlainItemsAfter;
    ItemsStart(items, x);
    ItemsStart(others, y);
    if items != [] && others != [] {
      FirstItem(items, others, x, y);
    }
  }

  lemma ItemsStart(items: seq<Tree>, x: string)
    requires forall i :: 0 <= i < |items| ==> WellFormed(items[i])
    requires x != "" && x[0] == ']'
    ensures (PlainItems(items) + x)[0] == ']' <==> items == []
    ensures items == [] ==> PlainItems(items) + x == x
  {
    hide Plain;
    if items != [] {
      StartsWithKind(items[0]);
    }
  }

  lemma {:induction false} FirstItem(items: seq<Tree>, others: seq<Tree>, x: string, y: string)
    requires forall i :: 0 <= i < |items| ==> WellFormed(items[i])
    requires forall i :: 0 <= i < |others| ==> WellFormed(others[i])
    requires items != [] && others != [] && x != "" && y != "" && x[0] == y[0] == ']'
    requires
      (Plain(items[0]) + PlainItemsAfter(items[1..])) + x == (Plain(others[0]) + PlainItemsAfter(others[1..])) + y
    ensures items == others && x == y
    decreases items, 0
  {
    hide Plain, WellFormed;
    var r, s := PlainItemsAfter(items[1..]) + x, PlainItemsAfter(others[1..]) + y;
    assert (Plain(items[0]) + PlainItemsAfter(items[1..])) + x == Plain(items[0]) + r;
    assert (Plain(others[0]) + PlainItemsAfter(others[1..])) + y == Plain(others[0]) + s;
    ItemsTailStops(items[1..], x);
    ItemsTailStops(others[1..], y);
    ReadBack(items[0], others[0], r, s);
    assert items == [items[0]] + items[1..] && others == [others[0]] + others[1..];
    if items[1..] != [] && others[1..] != [] {
      var i, o := items[1..], others[1..];
      Skip(",", Plain(i[0]) + PlainItemsAfter(i[1..]), x, Plain(o[0]) + PlainItemsAfter(o[1..]), y);
      FirstItem(i, o, x, y);
    }
  }

  lemma ItemsTailStops(items: seq<Tree>, x: string)
    requires x != "" && x[0] == ']'
    ensures
      var r := PlainItemsAfter(items) + x;
      Stops(r) && (items == [] ==> r == x) && (items != [] ==> r[0] == ',')
    ensures items != [] ==> PlainItemsAfter(items) == "," + (Plain(items[0]) + PlainItemsAfter(items[1..]))
  {
    hide Plain;
    if items != [] {
      Regroup(",", Plain(items[0]), PlainItemsAfter(items[1..]), "");
    }
  }

  lemma {:induction false} ReadBackMembers(a: Tree, ms: seq<Member>, ns: seq<Member>, x: string, y: string)
    requires forall i :: 0 <= i < |ms| ==> WellFormed(ms[i].value) && ms[i].value < a
    requires forall i :: 0 <= i < |ns| ==> WellFormed(ns[i].value)
    requires x != "" && y != "" && x[0] == y[0] == '}' && PlainMembers(ms) + x == PlainMembers(ns) + y
    ensures ms == ns && x == y
    decreases a, 0, |ms|, 1
  {
    hide Plain, PlainMembersAfter, WellFormed;
    MembersStart(ms, x);
    MembersStart(ns, y);
    if ms != [] && ns != [] {
      FirstMember(a, ms, ns, x, y);
    }
  }

  lemma MembersStart(ms: seq<Member>, x: string)
    requires x != "" && x[0] == '}'
    ensures (PlainMembers(ms) + x)[0] == '}' <==> ms == []
    ensures ms == [] ==> PlainMembers(ms) + x == x
  {
  }

  lemma {:induction false} FirstMember(a: Tree, ms: seq<Member>, ns: seq<Member>, x: string, y: string)
    requires forall i :: 0 <= i < |ms| ==> WellFormed(ms[i].value) && ms[i].value < a
    requires forall i :: 0 <= i < |ns| ==> WellFormed(ns[i].value)
    requires ms != [] && ns != [] && x != "" && y != "" && x[0] == y[0] == '}'
    requires
      (PlainMember(ms[0]) + PlainMembersAfter(ms[1..])) + x == (PlainMember(ns[0]) + PlainMembersAfter(ns[1..])) + y
    ensures ms == ns && x == y
    decreases a, 0, |ms|, 0
  {
    hide Plain, WellFormed, Quoted;
    var r, s := PlainMembersAfter(ms[1..]) + x, PlainMembersAfter(ns[1..]) + y;
    MembersTailStops(ms[1..], x);
    MembersTailStops(ns[1..], y);
    MemberSplits(ms[0], PlainMembersAfter(ms[1..]), x);
    MemberSplits(ns[0], PlainMembersAfter(ns[1..]), y);
    QuotedIsUnambiguous(ms[0].key, ns[0].key, (":" + Plain(ms[0].value)) + r, (":" + Plain(ns[0].value)) + s);
    Skip(":", Plain(ms[0].value), r, Plain(ns[0].value), s);
    ReadBack(ms[0].value, ns[0].value, r, s);
    assert ms == [ms[0]] + ms[1..] && ns == [ns[0]] + ns[1..];
    if ms[1..] != [] && ns[1..] != [] {
      var m, n := ms[1..], ns[1..];
      Skip(",", PlainMember(m[0]) + PlainMembersAfter(m[1..]), x, PlainMember(n[0]) + PlainMembersAfter(n[1..]), y);
      FirstMember(a, m, n, x, y);
    }
  }

  lemma MemberSplits(m: Member, rest: string, x: string)
    ensures (PlainMember(m) + rest) + x == Quoted(m.key) + ((":" + Plain(m.value)) + (rest + x))
  {
  }

  lemma MembersTailStops(ms: seq<Member>, x: string)
    requires x != "" && x[0] == '}'
    ensures
      var r := PlainMembersAfter(ms) + x;
      Stops(r) && (ms == [] ==> r == x) && (ms != [] ==> r[0] == ',')
    ensures ms != [] ==> PlainMembersAfter(ms) == "," + (PlainMember(ms[0]) + PlainMembersAfter(ms[1..]))
  {
    hide PlainMember;
    if ms != [] {
      Regroup(",", PlainMember(ms[0]), PlainMembersAfter(ms[1..]), "");
    }
  }

  // --- Member order is all that sorting forgets -----------------------------------------------------

  ghost predicate KeySorted(ms: seq<Member>) {
    forall i, j :: 0 <= i < j < |ms| ==> Less(ms[i].key, ms[j].key)
  }

  /** What a list of members holds under each key. */
  ghost function ValueOf(ms: seq<Member>, key: string): Option<Tree> {
    if ms == [] then None else if ms[0].key == key then Some(ms[0].value) else ValueOf(ms[1..], key)
  }

  lemma {:induction false} InsertSorted(m: Member, ms: seq<Member>)
    requires KeySorted(ms) && forall i :: 0 <= i < |ms| ==> ms[i].key != m.key
    ensures KeySorted(Insert(m, ms))
    ensures forall key :: ValueOf(Insert(m, ms), key) == if key == m.key then Some(m.value) else ValueOf(ms, key)
  {
    if ms != [] {
      LessIsTotal(ms[0].key, m.key);
      if Less(ms[0].key, m.key) {
        InsertSorted(m, ms[1..]);
        InsertKeeps(m, ms[1..]);
        var rest := Insert(m, ms[1..]);
        var all := Insert(m, ms);
        assert all == [ms[0]] + rest && all[1..] == rest;
        forall i | 0 <= i < |rest| ensures Less(ms[0].key, rest[i].key) {
          assert rest[i] in rest;
          if rest[i] != m { var j :| 0 <= j < |ms[1..]| && ms[1..][j] == rest[i]; }
        }
      } else {
        forall j | 0 <= j < |ms| ensures Less(m.key, ms[j].key) {
          if j > 0 { LessIsTransitive(m.key, ms[0].key, ms[j].key); }
        }
        assert ([m] + ms)[1..] == ms;
      }
    }
  }

  /** Sorting distinct keys sorts them and keeps what is held under each. */
  lemma {:induction false} SortedIsSorted(ms: seq<Member>)
    requires DistinctKeys(ms)
    ensures KeySorted(Sorted(ms)) && forall key :: ValueOf(Sorted(ms), key) == ValueOf(ms, key)
  {
    if ms != [] {
      SortedIsSorted(ms[1..]);
      var rest := Sorted(ms[1..]);
      SortedKeeps(ms[1..]);
      forall i | 0 <= i < |rest| ensures rest[i].key != ms[0].key {
        assert rest[i] in rest;
        var j :| 0 <= j < |ms[1..]| && ms[1..][j] == rest[i];
      }
      InsertSorted(ms[0], rest);
    }
  }

  lemma {:induction false} ValueOfNone(ms: seq<Member>, key: string)
    ensures ValueOf(ms, key).None? <==> forall i :: 0 <= i < |ms| ==> ms[i].key != key
    ensures ValueOf(ms, key).Some? ==> exists i :: 0 <= i < |ms| && ms[i] == Member(key, ValueOf(ms, key).value)
  {
    if ms != [] {
      ValueOfNone(ms[1..], key);
      assert forall i :: 0 < i < |ms| ==> ms[i] == ms[1..][i - 1];
      assert forall i :: 0 <= i < |ms[1..]| ==> ms[1..][i] == ms[i + 1];
    }
  }

  /** A sorted list of distinct keys is determined by what it holds. */
  lemma {:induction false} SortedIsUnique(ms: seq<Member>, ns: seq<Member>)
    requires KeySorted(ms) && KeySorted(ns)
    requires forall key :: ValueOf(ms, key) == ValueOf(ns, key)
    ensures ms == ns
  {
    assert ms != [] ==> ValueOf(ms, ms[0].key) != ValueOf([], ms[0].key);
    assert ns != [] ==> ValueOf(ns, ns[0].key) != ValueOf([], ns[0].key);
    if ms != [] && ns != [] {
      SameFirst(ms, ns);
      forall key ensures ValueOf(ms[1..], key) == ValueOf(ns[1..], key) {
        if key == ms[0].key {
          LessIsTotal(key, key);
          ValueOfNone(ms[1..], key);
          ValueOfNone(ns[1..], key);
        } else {
          assert ValueOf(ms, key) == ValueOf(ns, key);
        }
      }
      SortedIsUnique(ms[1..], ns[1..]);
      assert ms == [ms[0]] + ms[1..] && ns == [ns[0]] + ns[1..];
    }
  }

  lemma SameFirst(ms: seq<Member>, ns: seq<Member>)
    requires KeySorted(ms) && KeySorted(ns) && ms != [] && ns != []
    requires forall key :: ValueOf(ms, key) == ValueOf(ns, key)
    ensures ms[0] == ns[0]
  {
    var a, b := ms[0].key, ns[0].key;
    assert ValueOf(ms, a).Some? && ValueOf(ns, b).Some?;
    ValueOfNone(ns, a);
    ValueOfNone(ms, b);
    var i :| 0 <= i < |ns| && ns[i].key == a;
    var j :| 0 <= j < |ms| && ms[j].key == b;
    LessIsTotal(a, b);
    assert ValueOf(ms, a) == ValueOf(ns, a);
  }

  /** The fields of an object are its members. */
  lemma {:induction false} FieldsAre(ms: seq<Member>)
    requires DistinctKeys(ms)
    ensures forall key :: key in ToFields(ms) <==> ValueOf(ms, key).Some?
    ensures forall key :: key in ToFields(ms) ==> ToFields(ms)[key] == ToValue(ValueOf(ms, key).value)
  {
    if ms != [] {
      FieldsAre(ms[1..]);
      ValueOfNone(ms[1..], ms[0].key);
    }
  }

  ghost function NormalOf(t: Option<Tree>): Option<Tree> {
    if t.Some? then Some(Normal(t.value)) else None
  }

  lemma {:induction false} ValueOfNormal(ms: seq<Member>, key: string)
    ensures ValueOf(NormalMembers(ms), key) == NormalOf(ValueOf(ms, key))
  {
    if ms != [] {
      ValueOfNormal(ms[1..], key);
    }
  }

  lemma NormalDistinct(ms: seq<Member>)
    requires DistinctKeys(ms)
    ensures DistinctKeys(NormalMembers(ms))
  {
    NormalMembersAt(ms);
  }

  /** Normal forms of well-formed documents are well formed. */
  lemma {:induction false} NormalIsWellFormed(t: Tree)
    requires WellFormed(t)
    ensures WellFormed(Normal(t))
  {
    match t {
      case TArray(items) =>
        NormalItemsAt(items);
        forall i | 0 <= i < |items| { NormalIsWellFormed(items[i]); }
      case TObject(ms) =>
        NormalMembersAt(ms);
        forall i | 0 <= i < |ms| { NormalIsWellFormed(ms[i].value); }
        NormalDistinct(ms);
        SortedDistinct(NormalMembers(ms));
      case _ =>
    }
  }

  lemma SortedDistinct(ms: seq<Member>)
    requires DistinctKeys(ms) && forall i :: 0 <= i < |ms| ==> WellFormed(ms[i].value)
    ensures DistinctKeys(Sorted(ms)) && forall i :: 0 <= i < |Sorted(ms)| ==> WellFormed(Sorted(ms)[i].value)
  {
    SortedKeeps(ms);
    SortedIsSorted(ms);
    forall i, j | 0 <= i < j < |Sorted(ms)| ensures Sorted(ms)[i].key != Sorted(ms)[j].key {
      LessIsTotal(Sorted(ms)[i].key, Sorted(ms)[j].key);
    }
    forall i | 0 <= i < |Sorted(ms)| ensures WellFormed(Sorted(ms)[i].value) {
      assert Sorted(ms)[i] in Sorted(ms);
    }
  }

  /** Two documents have one normal form exactly when they are equal up to member order. */
  lemma {:induction false} NormalForm(a: Tree, b: Tree)
    requires WellFormed(a) && WellFormed(b)
    ensures Normal(a) == Normal(b) <==> ToValue(a) == ToValue(b)
    decreases a
  {
    match a {
      case TArray(items) =>
        if b.TArray? { NormalArray(a, items, b.items); }
      case TObject(ms) =>
        if b.TObject? { NormalObject(a, ms, b.members); }
      case _ =>
    }
  }

  lemma {:induction false} NormalArray(a: Tree, xs: seq<Tree>, ys: seq<Tree>)
    requires WellFormed(a) && a.TArray? && a.items == xs && WellFormed(TArray(ys))
    ensures Normal(TArray(xs)) == Normal(TArray(ys)) <==> ToValue(TArray(xs)) == ToValue(TArray(ys))
    decreases a, 0
  {
    hide Normal, ToValue;
    NormalArrayIs(xs);
    NormalArrayIs(ys);
    forall i | 0 <= i < |xs| && i < |ys| ensures Normal(xs[i]) == Normal(ys[i]) <==> ToValue(xs[i]) == ToValue(ys[i]) {
      NormalForm(xs[i], ys[i]);
    }
    var nx, ny := Normal(TArray(xs)).items, Normal(TArray(ys)).items;
    var vx, vy := ToValue(TArray(xs)).items, ToValue(TArray(ys)).items;
    if |xs| == |ys| {
      assert nx == ny <==> forall i :: 0 <= i < |xs| ==> Normal(xs[i]) == Normal(ys[i]) by {
        if nx == ny { assert forall i :: 0 <= i < |xs| ==> nx[i] == ny[i]; }
      }
      assert vx == vy <==> forall i :: 0 <= i < |xs| ==> ToValue(xs[i]) == ToValue(ys[i]) by {
        if vx == vy { assert forall i :: 0 <= i < |xs| ==> vx[i] == vy[i]; }
      }
    }
  }

  lemma NormalArrayIs(xs: seq<Tree>)
    ensures
      var n := Normal(TArray(xs));
      n.TArray? && |n.items| == |xs| && forall i :: 0 <= i < |xs| ==> n.items[i] == Normal(xs[i])
    ensures
      var v := ToValue(TArray(xs));
      v.Array? && |v.items| == |xs| && forall i :: 0 <= i < |xs| ==> v.items[i] == ToValue(xs[i])
  {
    NormalItemsAt(xs);
  }

  lemma {:induction false} NormalObject(a: Tree, ms: seq<Member>, ns: seq<Member>)
    requires WellFormed(a) && a.TObject? && a.members == ms && WellFormed(TObject(ns))
    ensures Sorted(NormalMembers(ms)) == Sorted(NormalMembers(ns)) <==> ToFields(ms) == ToFields(ns)
    decreases a, 0
  {
    hide Normal, ToValue, Sorted, ToFields, NormalMembers;
    FieldsAre(ms);
    FieldsAre(ns);
    MembersHold(ms);
    MembersHold(ns);
    forall key ensures SameAt(Sorted(NormalMembers(ms)), Sorted(NormalMembers(ns)), key)
      <==> Lookup(ToFields(ms), key) == Lookup(ToFields(ns), key)
    {
      ValueOfNone(ms, key);
      ValueOfNone(ns, key);
      if ValueOf(ms, key).Some? && ValueOf(ns, key).Some? {
        var i :| 0 <= i < |ms| && ms[i] == Member(key, ValueOf(ms, key).value);
        NormalForm(ms[i].value, ValueOf(ns, key).value);
      }
    }
    if ToFields(ms) == ToFields(ns) {
      forall key ensures ValueOf(Sorted(NormalMembers(ms)), key) == ValueOf(Sorted(NormalMembers(ns)), key) {
        assert SameAt(Sorted(NormalMembers(ms)), Sorted(NormalMembers(ns)), key);
      }
      SortedIsUnique(Sorted(NormalMembers(ms)), Sorted(NormalMembers(ns)));
    } else if Sorted(NormalMembers(ms)) == Sorted(NormalMembers(ns)) {
      forall key ensures Lookup(ToFields(ms), key) == Lookup(ToFields(ns), key) {
        assert SameAt(Sorted(NormalMembers(ms)), Sorted(NormalMembers(ns)), key);
      }
      SameLookups(ToFields(ms), ToFields(ns));
    }
  }

  ghost predicate SameAt(ms: seq<Member>, ns: seq<Member>, key: string) {
    ValueOf(ms, key) == ValueOf(ns, key)
  }

  lemma SameLookups(m: map<string, Value>, n: map<string, Value>)
    requires forall key :: Lookup(m, key) == Lookup(n, key)
    ensures m == n
  {
    forall key ensures (key in m <==> key in n) && (key in m ==> m[key] == n[key]) {
      assert Lookup(m, key) == Lookup(n, key);
    }
  }

  /** The sorted members hold, under every key, the normal form of what the members hold. */
  lemma MembersHold(ms: seq<Member>)
    requires DistinctKeys(ms)
    ensures KeySorted(Sorted(NormalMembers(ms)))
    ensures forall key :: ValueOf(Sorted(NormalMembers(ms)), key) == NormalOf(ValueOf(ms, key))
  {
    NormalDistinct(ms);
    SortedIsSorted(NormalMembers(ms));
    forall key { ValueOfNormal(ms, key); }
  }

  /**
   * Canonical JSON is canonical: two documents render to one string exactly
   * when they are equal up to the order of object members at every depth.
   */
  lemma RenderingIsCanonical(a: Tree, b: Tree)
    requires WellFormed(a) && WellFormed(b)
    ensures Plain(Normal(a)) == Plain(Normal(b)) <==> ToValue(a) == ToValue(b)
  {
    hide Plain, Normal, ToValue;
    NormalForm(a, b);
    NormalIsWellFormed(a);
    NormalIsWellFormed(b);
    if Plain(Normal(a)) == Plain(Normal(b)) {
      assert Plain(Normal(a)) + "" == Plain(Normal(b)) + "";
      ReadBack(Normal(a), Normal(b), "", "");
    }
  }

  /** So the template hash does not depend on construction order. */
  lemma HashIgnoresMemberOrder(a: Tree, b: Tree)
    requires WellFormed(a) && WellFormed(b) && ToValue(a) == ToValue(b)
    ensures HashText(a) == HashText(b)
  {
    hide Plain, Normal, ToValue;
    RenderingIsCanonical(a, b);
  }
}
