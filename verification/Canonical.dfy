// Canonical JSON: an ordered document is rendered with its members sorted, and
// hashed. Two documents render alike exactly when they differ only in member order.
module Canonical {
  import opened Text
  import opened Json
  import opened Order

  /** `serde_json::Value` with its members in insertion order. */
  datatype Tree =
    | TNull
    | TBool(b: bool)
    | TNumber(num: Num)
    | TString(s: string)
    | TArray(items: seq<Tree>)
    | TObject(members: seq<Member>)

  datatype Member = Member(key: string, value: Tree)

  predicate DistinctKeys(ms: seq<Member>) {
    forall i, j :: 0 <= i < j < |ms| ==> ms[i].key != ms[j].key
  }

  /** The text of a number that is not an integer: it shows a point or an exponent. */
  predicate IsFloatText(s: string) {
    && s != "" && (IsDigit(s[0]) || s[0] == '-') && (forall i :: 0 <= i < |s| ==> InNumber(s[i]))
    && exists i :: 0 <= i < |s| && s[i] in ".e"
  }

  predicate InNumber(c: char) {
    IsDigit(c) || c in "-+.e"
  }

  /** What a `serde_json::Map` and a `serde_json::Number` guarantee. */
  predicate WellFormed(t: Tree) {
    match t
    case TNumber(Float(repr)) => IsFloatText(repr)
    case TArray(items) => forall i :: 0 <= i < |items| ==> WellFormed(items[i])
    case TObject(ms) => DistinctKeys(ms) && forall i :: 0 <= i < |ms| ==> WellFormed(ms[i].value)
    case _ => true
  }

  // --- The document up to member order -----------------------------------------------------

  function ToValue(t: Tree): Value {
    match t
    case TNull => Null
    case TBool(b) => Bool(b)
    case TNumber(num) => Number(num)
    case TString(s) => String(s)
    case TArray(items) => Array(seq(|items|, i requires 0 <= i < |items| => ToValue(items[i])))
    case TObject(ms) => Object(ToFields(ms))
  }

  function ToFields(ms: seq<Member>): map<string, Value> {
    if ms == [] then map[] else ToFields(ms[1..])[ms[0].key := ToValue(ms[0].value)]
  }

  // --- Sorting -------------------------------------------------------------------------------

  function Insert(m: Member, ms: seq<Member>): seq<Member> {
    if ms == [] then [m] else
    if Less(ms[0].key, m.key) then [ms[0]] + Insert(m, ms[1..]) else [m] + ms
  }

  /** `sort_by` on the key. */
  function Sorted(ms: seq<Member>): seq<Member> {
    if ms == [] then [] else Insert(ms[0], Sorted(ms[1..]))
  }

  /** Members sorted at every depth. */
  function Normal(t: Tree): Tree {
    match t
    case TArray(items) => TArray(NormalItems(items))
    case TObject(ms) => TObject(Sorted(NormalMembers(ms)))
    case _ => t
  }

  function NormalItems(items: seq<Tree>): seq<Tree> {
    if items == [] then [] else [Normal(items[0])] + NormalItems(items[1..])
  }

  function NormalMembers(ms: seq<Member>): seq<Member> {
    if ms == [] then [] else [Member(ms[0].key, Normal(ms[0].value))] + NormalMembers(ms[1..])
  }

  // --- Rendering in the order given -------------------------------------------------------------

  /** One character inside a JSON string. */
  function Escaped(c: char): string {
    if c == '\"' then "\\\"" else
    if c == '\\' then "\\\\" else
    if c == '\n' then "\\n" else
    if c == '\r' then "\\r" else
    if c == '\t' then "\\t" else
    if c as int == 8 then "\\b" else
    if c as int == 12 then "\\f" else
    if c as int < 32 then "\\u00" + [HexDigit(c as int / 16), HexDigit(c as int % 16)]
    else [c]
  }

  function EscapedAll(s: string): string {
    if s == "" then "" else Escaped(s[0]) + EscapedAll(s[1..])
  }

  function Quoted(s: string): string {
    "\"" + EscapedAll(s) + "\""
  }

  function NumText(num: Num): string {
    match num
    case Int(n) => SignedDecimal(n)
    case Float(repr) => repr
  }

  function Plain(t: Tree): string {
    match t
    case TNull => "null"
    case TBool(b) => if b then "true" else "false"
    case TNumber(num) => NumText(num)
    case TString(s) => Quoted(s)
    case TArray(items) => "[" + PlainItems(items) + "]"
    case TObject(ms) => "{" + PlainMembers(ms) + "}"
  }

  /** Items with commas between. */
  function PlainItems(items: seq<Tree>): string {
    if items == [] then "" else Plain(items[0]) + PlainItemsAfter(items[1..])
  }

  function PlainItemsAfter(items: seq<Tree>): string {
    if items == [] then "" else "," + Plain(items[0]) + PlainItemsAfter(items[1..])
  }

  function PlainMembers(ms: seq<Member>): string {
    if ms == [] then "" else PlainMember(ms[0]) + PlainMembersAfter(ms[1..])
  }

  function PlainMembersAfter(ms: seq<Member>): string {
    if ms == [] then "" else "," + PlainMember(ms[0]) + PlainMembersAfter(ms[1..])
  }

  function PlainMember(m: Member): string {
    Quoted(m.key) + ":" + Plain(m.value)
  }

  // --- The renderer --------------------------------------------------------------------------------

  lemma {:induction false} InsertKeeps(m: Member, ms: seq<Member>)
    ensures forall x :: x in Insert(m, ms) <==> x == m || x in ms
    ensures |Insert(m, ms)| == |ms| + 1
  {
    if ms != [] {
      InsertKeeps(m, ms[1..]);
    }
  }

  lemma {:induction false} SortedKeeps(ms: seq<Member>)
    ensures forall x :: x in Sorted(ms) <==> x in ms
    ensures |Sorted(ms)| == |ms|
  {
    if ms != [] {
      SortedKeeps(ms[1..]);
      InsertKeeps(ms[0], Sorted(ms[1..]));
    }
  }

  lemma {:induction false} NormalInsert(m: Member, ms: seq<Member>)
    ensures NormalMembers(Insert(m, ms)) == Insert(Member(m.key, Normal(m.value)), NormalMembers(ms))
  {
    if ms == [] {
      assert NormalMembers([m]) == [Member(m.key, Normal(m.value))];
    } else if Less(ms[0].key, m.key) {
      NormalInsert(m, ms[1..]);
      assert Insert(m, ms)[1..] == Insert(m, ms[1..]);
      assert NormalMembers(ms)[1..] == NormalMembers(ms[1..]);
    } else {
      assert ([m] + ms)[1..] == ms;
    }
  }

  /** Sorting looks at keys only, so it does not matter whether values are normalised before or after. */
  lemma {:induction false} NormalSorted(ms: seq<Member>)
    ensures NormalMembers(Sorted(ms)) == Sorted(NormalMembers(ms))
  {
    if ms != [] {
      NormalSorted(ms[1..]);
      NormalInsert(ms[0], Sorted(ms[1..]));
      assert NormalMembers(ms)[1..] == NormalMembers(ms[1..]);
    }
  }

  lemma {:induction false} NormalMembersAt(ms: seq<Member>)
    ensures |NormalMembers(ms)| == |ms|
    ensures forall i :: 0 <= i < |ms| ==> NormalMembers(ms)[i] == Member(ms[i].key, Normal(ms[i].value))
  {
    if ms != [] {
      NormalMembersAt(ms[1..]);
    }
  }

  lemma {:induction false} NormalItemsAt(items: seq<Tree>)
    ensures |NormalItems(items)| == |items|
    ensures forall i :: 0 <= i < |items| ==> NormalItems(items)[i] == Normal(items[i])
  {
    if items != [] {
      NormalItemsAt(items[1..]);
    }
  }

  /** Rendered items or members grow at the end. */
  lemma {:induction false} ItemsAfterSnoc(items: seq<Tree>, last: Tree)
    ensures PlainItemsAfter(items + [last]) == PlainItemsAfter(items) + "," + Plain(last)
  {
    if items != [] {
      ItemsAfterSnoc(items[1..], last);
      assert (items + [last])[1..] == items[1..] + [last];
    }
  }

  lemma ItemsSnoc(items: seq<Tree>, last: Tree)
    ensures PlainItems(items + [last]) == PlainItems(items) + (if items == [] then "" else ",") + Plain(last)
  {
    if items != [] {
      ItemsAfterSnoc(items[1..], last);
      assert (items + [last])[1..] == items[1..] + [last];
    }
  }

  lemma {:induction false} MembersAfterSnoc(ms: seq<Member>, last: Member)
    ensures PlainMembersAfter(ms + [last]) == PlainMembersAfter(ms) + "," + PlainMember(last)
  {
    if ms != [] {
      MembersAfterSnoc(ms[1..], last);
      assert (ms + [last])[1..] == ms[1..] + [last];
    }
  }

  lemma MembersSnoc(ms: seq<Member>, last: Member)
    ensures PlainMembers(ms + [last]) == PlainMembers(ms) + (if ms == [] then "" else ",") + PlainMember(last)
  {
    if ms != [] {
      MembersAfterSnoc(ms[1..], last);
      assert (ms + [last])[1..] == ms[1..] + [last];
    }
  }

  /** `canonical_json`: append the document, members sorted, to `out`. */
  method CanonicalJson(t: Tree, out: string) returns (r: string)
    ensures r == out + Plain(Normal(t))
    decreases t, 1
  {
    match t {
      case TObject(ms) =>
        SortedKeeps(ms);
        var body := MembersJson(t, Sorted(ms), out + "{");
        NormalSorted(ms);
        r := body + "}";
      case TArray(items) =>
        var body := ItemsJson(items, out + "[");
        r := body + "]";
      case TNull => r := out + "null";
      case TBool(b) => r := out + if b then "true" else "false";
      case TNumber(num) => r := out + NumText(num);
      case TString(s) => r := out + Quoted(s);
    }
  }

  method MembersJson(t: Tree, keys: seq<Member>, out: string) returns (r: string)
    requires t.TObject? && forall m :: m in keys ==> m in t.members
    ensures r == out + PlainMembers(NormalMembers(keys))
    decreases t, 0
  {
    hide PlainMembers, NormalMembers, Normal, Plain, Quoted;
    r := out;
    ghost var normal := NormalMembers(keys);
    assert PlainMembers([]) == "" by { NoMembers(); }
    NormalMembersAt(keys);
    for i := 0 to |keys|
      invariant r == out + PlainMembers(normal[..i])
    {
      MembersSnoc(normal[..i], normal[i]);
      assert normal[..i + 1] == normal[..i] + [normal[i]];
      ghost var before := r;
      if i > 0 {
        r := r + ",";
      }
      r := r + Quoted(keys[i].key) + ":";
      assert keys[i] in t.members;
      r := CanonicalJson(keys[i].value, r);
      assert r == before + (if i == 0 then "" else ",") + PlainMember(normal[i]);
    }
    assert normal[..|keys|] == normal;
  }

  lemma NoMembers()
    ensures PlainMembers([]) == ""
  {
  }

  method ItemsJson(items: seq<Tree>, out: string) returns (r: string)
    ensures r == out + PlainItems(NormalItems(items))
    decreases items, 0
  {
    r := out;
    ghost var normal := NormalItems(items);
    NormalItemsAt(items);
    for i := 0 to |items|
      invariant r == out + PlainItems(normal[..i])
    {
      ItemsSnoc(normal[..i], normal[i]);
      assert normal[..i + 1] == normal[..i] + [normal[i]];
      if i > 0 {
        r := r + ",";
      }
      r := CanonicalJson(items[i], r);
    }
    assert normal[..|items|] == normal;
  }

  // --- The hash ------------------------------------------------------------------------------------

  newtype Byte = b: int | 0 <= b < 256

  /** UTF-8 of one character. */
  function Utf8(c: char): seq<Byte> {
    var n := c as int;
    if n < 0x80 then [n as Byte] else
    if n < 0x800 then [(0xC0 + n / 0x40) as Byte, (0x80 + n % 0x40) as Byte] else
    if n < 0x10000 then [(0xE0 + n / 0x1000) as Byte, (0x80 + n / 0x40 % 0x40) as Byte, (0x80 + n % 0x40) as Byte]
    else [(0xF0 + n / 0x40000) as Byte, (0x80 + n / 0x1000 % 0x40) as Byte, (0x80 + n / 0x40 % 0x40) as Byte,
          (0x80 + n % 0x40) as Byte]
  }

  function Bytes(s: string): seq<Byte> {
    if s == "" then [] else Utf8(s[0]) + Bytes(s[1..])
  }

  const FNV_OFFSET: bv64 := 0xcbf2_9ce4_8422_2325
  const FNV_PRIME: bv64 := 0x0000_0100_0000_01b3

  function FnvStep(h: bv64, b: Byte): bv64 {
    (h ^ (b as bv64)) * FNV_PRIME
  }

  function Fnv(data: seq<Byte>): bv64 {
    if data == [] then FNV_OFFSET else FnvStep(Fnv(data[..|data| - 1]), data[|data| - 1])
  }

  method Fnv1a(data: seq<Byte>) returns (h: bv64)
    ensures h == Fnv(data)
  {
    hide FnvStep;
    h := FNV_OFFSET;
    for i := 0 to |data|
      invariant h == Fnv(data[..i])
    {
      assert data[..i + 1][..i] == data[..i];
      h := FnvStep(h, data[i]);
    }
    assert data[..|data|] == data;
  }

  /** `{:016x}`. */
  function Hex(n: nat, width: nat): (s: string)
    ensures |s| == width
  {
    if width == 0 then "" else Hex(n / 16, width - 1) + [HexDigit(n % 16)]
  }

  function HashText(t: Tree): string {
    Hex(Fnv(Bytes(Plain(Normal(t)))) as int, 16)
  }

  method TemplateHash(t: Tree) returns (s: string)
    ensures s == HashText(t)
  {
    hide Plain, Normal, Fnv, Bytes, Hex;
    var text := CanonicalJson(t, "");
    assert text == Plain(Normal(t));
    var h := Fnv1a(Bytes(text));
    s := Hex(h as int, 16);
  }
}
