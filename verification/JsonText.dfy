// That what is rendered is JSON, by a reader written from RFC 8259, and that
// what is hashed is its UTF-8, by the values FNV-1a is known for.
module JsonText {
  import opened Options
  import opened Text
  import opened Json
  import opened Order
  import opened Canonical
  import opened CanonicalLaws
  import opened Framing

  // --- Strings, section 7 of RFC 8259 -------------------------------------------------------------

  /** What a two-character escape stands for. */
  function Escape(c: char): Option<char> {
    match c
    case '\"' => Some('\"')
    case '\\' => Some('\\')
    case '/' => Some('/')
    case 'b' => Some(8 as char)
    case 'f' => Some(12 as char)
    case 'n' => Some(10 as char)
    case 'r' => Some(13 as char)
    case 't' => Some(9 as char)
    case _ => None
  }

  /** The text between the quotes of a string; a control character or a bare quote is not allowed. */
  function Unescaped(s: string): Option<string>
    decreases |s|
  {
    if s == "" then Some("") else
    if s[0] == '\"' || s[0] as int < 32 then None else
    if s[0] != '\\' then Before(s[0], Unescaped(s[1..])) else
    if |s| < 2 then None else
    if s[1] == 'u' then
      if |s| < 6 || !AllHex(s[2..6]) || !IsScalar(HexValue(s[2..6])) then None
      else Before(HexValue(s[2..6]) as char, Unescaped(s[6..]))
    else
      var c := Escape(s[1]);
      if c.None? then None else Before(c.value, Unescaped(s[2..]))
  }

  predicate IsScalar(n: nat) {
    n < 0xD800 || 0xE000 <= n < 0x10000
  }

  function Before(c: char, rest: Option<string>): Option<string> {
    if rest.None? then None else Some([c] + rest.value)
  }

  lemma {:induction false} EscapesReadBack(s: string)
    ensures Unescaped(EscapedAll(s)) == Some(s)
  {
    hide Escaped, Unescaped;
    if s == "" {
      assert Unescaped("") == Some("") by { NothingEscaped(); }
    } else {
      EscapesReadBack(s[1..]);
      EscapeReadsBack(s[0], EscapedAll(s[1..]));
      assert [s[0]] + s[1..] == s;
    }
  }

  lemma NothingEscaped()
    ensures Unescaped("") == Some("")
  {
  }

  lemma EscapeReadsBack(c: char, rest: string)
    ensures Unescaped(Escaped(c) + rest) == Before(c, Unescaped(rest))
  {
    var e := Escaped(c);
    var s := e + rest;
    assert s[0] == e[0] && s[|e|..] == rest;
    if |e| == 2 {
      assert s[1] == e[1];
    } else if |e| == 6 {
      assert s[1] == e[1];
      assert s[2..6] == e[2..6] == "00" + [HexDigit(c as int / 16), HexDigit(c as int % 16)];
      ControlCode(c);
    }
  }

  lemma ControlCode(c: char)
    requires c as int < 32
    ensures
      var digits := "00" + [HexDigit(c as int / 16), HexDigit(c as int % 16)];
      AllHex(digits) && HexValue(digits) == c as int
  {
    var a, b := HexDigit(c as int / 16), HexDigit(c as int % 16);
    HexDigitIs(c as int / 16);
    HexDigitIs(c as int % 16);
    var digits := "00" + [a, b];
    assert digits == "0" + "0" + [a] + [b];
    HexSnoc("", '0');
    HexSnoc("0", '0');
    HexSnoc("0" + "0", a);
    HexSnoc("0" + "0" + [a], b);
    assert "" + ['0'] == "0" && "0" + ['0'] == "0" + "0";
  }

  lemma HexDigitIs(d: nat)
    requires d < 16
    ensures IsHex(HexDigit(d)) && HexOf(HexDigit(d)) == d && !('A' <= HexDigit(d) <= 'F')
  {
  }

  lemma HexSnoc(s: string, c: char)
    requires AllHex(s) && IsHex(c)
    ensures AllHex(s + [c]) && HexValue(s + [c]) == 16 * HexValue(s) + HexOf(c)
  {
    assert (s + [c])[..|s|] == s;
  }

  // --- Values, sections 3 to 6 of RFC 8259 -----------------------------------------------------------

  predicate IsString(s: string, x: string) {
    |s| >= 2 && s[0] == '\"' && s[|s| - 1] == '\"' && Unescaped(s[1..|s| - 1]) == Some(x)
  }

  /** An integer: an optional minus sign, then digits without a leading zero. */
  predicate IsInteger(s: string, n: int) {
    var negative := s != "" && s[0] == '-';
    var digits := if negative then s[1..] else s;
    && digits != "" && AllDigits(digits) && (|digits| > 1 ==> digits[0] != '0')
    && n == (if negative then -(Digits(digits) as int) else Digits(digits))
  }

  /** Parts with commas between. */
  function Commas(parts: seq<string>): string {
    if parts == [] then "" else
    if |parts| == 1 then parts[0] else parts[0] + "," + Commas(parts[1..])
  }

  /** `s` is a JSON text of `t`, without any blanks. */
  ghost predicate Denotes(s: string, t: Tree)
    decreases t
  {
    match t
    case TNull => s == "null"
    case TBool(b) => s == if b then "true" else "false"
    case TNumber(Int(n)) => IsInteger(s, n)
    case TNumber(Float(repr)) => s == repr
    case TString(x) => IsString(s, x)
    case TArray(items) => exists parts :: s == "[" + Commas(parts) + "]" && AllDenote(parts, items)
    case TObject(ms) => exists parts :: s == "{" + Commas(parts) + "}" && AllMembers(parts, ms)
  }

  ghost predicate AllDenote(parts: seq<string>, items: seq<Tree>)
    decreases items
  {
    |parts| == |items| && forall i :: 0 <= i < |items| ==> Denotes(parts[i], items[i])
  }

  ghost predicate AllMembers(parts: seq<string>, ms: seq<Member>)
    decreases ms
  {
    |parts| == |ms| && forall i :: 0 <= i < |ms| ==> IsMember(parts[i], ms[i])
  }

  ghost predicate IsMember(s: string, m: Member)
    decreases m
  {
    exists name, value :: s == name + ":" + value && IsString(name, m.key) && Denotes(value, m.value)
  }

  /** What is rendered is a JSON text of the document, in the order given. */
  lemma {:induction false} RendersJson(t: Tree)
    ensures Denotes(Plain(t), t)
  {
    match t {
      case TNumber(Int(n)) => IntegerText(n);
      case TString(x) => QuotedText(x);
      case TArray(items) =>
        forall i | 0 <= i < |items| ensures Denotes(Plain(items[i]), items[i]) { RendersJson(items[i]); }
        var parts := seq(|items|, i requires 0 <= i < |items| => Plain(items[i]));
        ItemsAreCommas(items);
        assert AllDenote(parts, items);
      case TObject(ms) =>
        forall i | 0 <= i < |ms| ensures IsMember(PlainMember(ms[i]), ms[i]) {
          RendersJson(ms[i].value);
          QuotedText(ms[i].key);
        }
        var parts := seq(|ms|, i requires 0 <= i < |ms| => PlainMember(ms[i]));
        MembersAreCommas(ms);
        assert AllMembers(parts, ms);
      case _ =>
    }
  }

  lemma IntegerText(n: int)
    ensures IsInteger(SignedDecimal(n), n)
  {
    NoLeadingZero(if n < 0 then -n else n);
    if n < 0 { assert SignedDecimal(n)[1..] == Decimal(-n); }
  }

  lemma {:induction false} NoLeadingZero(n: nat)
    ensures |Decimal(n)| > 1 ==> Decimal(n)[0] != '0'
    ensures n > 0 ==> Decimal(n)[0] != '0'
  {
    if n >= 10 { NoLeadingZero(n / 10); }
  }

  lemma QuotedText(x: string)
    ensures IsString(Quoted(x), x)
  {
    hide EscapedAll;
    var s := Quoted(x);
    assert s[1..|s| - 1] == EscapedAll(x);
    EscapesReadBack(x);
  }

  lemma {:induction false} ItemsAreCommas(items: seq<Tree>)
    ensures PlainItems(items) == Commas(seq(|items|, i requires 0 <= i < |items| => Plain(items[i])))
  {
    hide Plain;
    if items != [] {
      var parts := seq(|items|, i requires 0 <= i < |items| => Plain(items[i]));
      var rest := items[1..];
      assert parts[1..] == seq(|rest|, i requires 0 <= i < |rest| => Plain(rest[i]));
      ItemsAreCommas(rest);
      if rest != [] {
        assert PlainItemsAfter(rest) == "," + PlainItems(rest);
      }
    }
  }

  lemma {:induction false} MembersAreCommas(ms: seq<Member>)
    ensures PlainMembers(ms) == Commas(seq(|ms|, i requires 0 <= i < |ms| => PlainMember(ms[i])))
  {
    hide PlainMember;
    if ms != [] {
      var parts := seq(|ms|, i requires 0 <= i < |ms| => PlainMember(ms[i]));
      var rest := ms[1..];
      assert parts[1..] == seq(|rest|, i requires 0 <= i < |rest| => PlainMember(rest[i]));
      MembersAreCommas(rest);
      if rest != [] {
        assert PlainMembersAfter(rest) == "," + PlainMembers(rest);
      }
    }
  }

  /** Members sorted by name at every depth. */
  ghost predicate SortedDeep(t: Tree) {
    match t
    case TArray(items) => forall i :: 0 <= i < |items| ==> SortedDeep(items[i])
    case TObject(ms) => KeySorted(ms) && forall i :: 0 <= i < |ms| ==> SortedDeep(ms[i].value)
    case _ => true
  }

  lemma {:induction false} NormalIsSorted(t: Tree)
    requires WellFormed(t)
    ensures SortedDeep(Normal(t)) && Normal(Normal(t)) == Normal(t)
  {
    match t {
      case TArray(items) =>
        NormalItemsAt(items);
        NormalItemsAt(NormalItems(items));
        forall i | 0 <= i < |items|
          ensures SortedDeep(Normal(items[i])) && Normal(Normal(items[i])) == Normal(items[i])
        {
          NormalIsSorted(items[i]);
        }
        assert NormalItems(NormalItems(items)) == NormalItems(items);
      case TObject(ms) =>
        forall i | 0 <= i < |ms|
          ensures SortedDeep(Normal(ms[i].value)) && Normal(Normal(ms[i].value)) == Normal(ms[i].value)
        {
          NormalIsSorted(ms[i].value);
        }
        NormalMembersSorted(ms);
      case _ =>
    }
  }

  lemma NormalMembersSorted(ms: seq<Member>)
    requires DistinctKeys(ms)
    requires forall i :: 0 <= i < |ms| ==>
      SortedDeep(Normal(ms[i].value)) && Normal(Normal(ms[i].value)) == Normal(ms[i].value)
    ensures SortedDeep(TObject(Sorted(NormalMembers(ms))))
    ensures Sorted(NormalMembers(Sorted(NormalMembers(ms)))) == Sorted(NormalMembers(ms))
  {
    hide Normal, NormalMembers, Sorted;
    var ns := NormalMembers(ms);
    NormalMembersAt(ms);
    NormalMembersAt(ns);
    assert DistinctKeys(ns);
    SortedIsSorted(ns);
    SortedKeeps(ns);
    var sorted := Sorted(ns);
    forall i | 0 <= i < |sorted| ensures SortedDeep(sorted[i].value) {
      assert sorted[i] in sorted;
      var j :| 0 <= j < |ns| && ns[j] == sorted[i];
    }
    NormalSorted(ns);
    assert NormalMembers(ns) == ns;
    forall i, j | 0 <= i < j < |sorted| ensures sorted[i].key != sorted[j].key {
      LessIsTotal(sorted[i].key, sorted[j].key);
    }
    SortedIsSorted(sorted);
    SortedIsUnique(Sorted(sorted), sorted);
  }

  /**
   * What the renderer appends is a JSON text of the very document, up to the
   * order of members, with its members sorted by name at every depth.
   */
  lemma CanonicalIsJson(t: Tree)
    requires WellFormed(t)
    ensures Denotes(Plain(Normal(t)), Normal(t)) && SortedDeep(Normal(t)) && ToValue(Normal(t)) == ToValue(t)
  {
    hide Plain, Normal, ToValue, Denotes, SortedDeep;
    RendersJson(Normal(t));
    NormalIsSorted(t);
    NormalIsWellFormed(t);
    NormalForm(Normal(t), t);
  }

  // --- Bytes and the hash ------------------------------------------------------------------------------

  predicate Tail(b: int) {
    0x80 <= b < 0xC0
  }

  /** The code point a sequence of bytes stands for, by the table of section 3 of RFC 3629. */
  function Utf8Code(bs: seq<int>): Option<int> {
    if |bs| == 1 && 0 <= bs[0] < 0x80 then Some(bs[0]) else
    if |bs| == 2 && 0xC2 <= bs[0] < 0xE0 && Tail(bs[1]) then Some((bs[0] - 0xC0) * 64 + (bs[1] - 0x80)) else
    if |bs| == 3 && 0xE0 <= bs[0] < 0xF0 && Tail(bs[1]) && Tail(bs[2]) then
      Some((bs[0] - 0xE0) * 4096 + (bs[1] - 0x80) * 64 + (bs[2] - 0x80))
    else if |bs| == 4 && 0xF0 <= bs[0] < 0xF5 && Tail(bs[1]) && Tail(bs[2]) && Tail(bs[3]) then
      Some((bs[0] - 0xF0) * 262144 + (bs[1] - 0x80) * 4096 + (bs[2] - 0x80) * 64 + (bs[3] - 0x80))
    else None
  }

  function Ints(bs: seq<Byte>): seq<int> {
    seq(|bs|, i requires 0 <= i < |bs| => bs[i] as int)
  }

  lemma Utf8ReadsBack(c: char)
    ensures Utf8Code(Ints(Utf8(c))) == Some(c as int)
  {
    var n := c as int;
    SixBits(n);
    var bs := Ints(Utf8(c));
    if n < 0x80 {
      assert bs == [n];
    } else if n < 0x800 {
      assert bs == [0xC0 + n / 0x40, 0x80 + n % 0x40];
    } else if n < 0x10000 {
      assert bs == [0xE0 + n / 0x1000, 0x80 + n / 0x40 % 0x40, 0x80 + n % 0x40];
    } else {
      assert bs == [0xF0 + n / 0x40000, 0x80 + n / 0x1000 % 0x40, 0x80 + n / 0x40 % 0x40, 0x80 + n % 0x40];
    }
  }

  lemma SixBits(n: nat)
    ensures n == n / 0x40 * 64 + n % 0x40
    ensures n == n / 0x1000 * 4096 + n / 0x40 % 0x40 * 64 + n % 0x40
    ensures n == n / 0x40000 * 262144 + n / 0x1000 % 0x40 * 4096 + n / 0x40 % 0x40 * 64 + n % 0x40
  {
    assert n / 0x1000 == n / 0x40 / 0x40 && n / 0x40000 == n / 0x1000 / 0x40;
  }

  /** The offset basis of 64-bit FNV-1a, and its published values for `a` and `foobar`. */
  lemma FnvKnown()
    ensures Fnv([]) == 0xcbf2_9ce4_8422_2325
    ensures Fnv([0x61]) == 0xaf63_dc4c_8601_ec8c
    ensures Fnv([0x66, 0x6f, 0x6f, 0x62, 0x61, 0x72]) == 0x8594_4171_f739_67e8
  {
    hide Fnv;
    assert Fnv([]) == 0xcbf2_9ce4_8422_2325 by { NothingHashed(); }
    FnvSnoc([], 0x61, [0x61]);
    FnvSnoc([], 0x66, [0x66]);
    FnvSnoc([0x66], 0x6f, [0x66, 0x6f]);
    FnvSnoc([0x66, 0x6f], 0x6f, [0x66, 0x6f, 0x6f]);
    FnvSnoc([0x66, 0x6f, 0x6f], 0x62, [0x66, 0x6f, 0x6f, 0x62]);
    FnvSnoc([0x66, 0x6f, 0x6f, 0x62], 0x61, [0x66, 0x6f, 0x6f, 0x62, 0x61]);
    FnvSnoc([0x66, 0x6f, 0x6f, 0x62, 0x61], 0x72, [0x66, 0x6f, 0x6f, 0x62, 0x61, 0x72]);
  }

  lemma NothingHashed()
    ensures Fnv([]) == 0xcbf2_9ce4_8422_2325
  {
  }

  lemma FnvSnoc(data: seq<Byte>, b: Byte, all: seq<Byte>)
    requires all == data + [b]
    ensures Fnv(all) == FnvStep(Fnv(data), b)
  {
    hide FnvStep;
    assert all[..|data|] == data;
  }

  /** The hexadecimal digits of a hash denote it, and are lower-case. */
  lemma {:induction false} HexReadsBack(n: nat, width: nat)
    ensures AllHex(Hex(n, width)) && (n < Pow16(width) ==> HexValue(Hex(n, width)) == n)
    ensures forall c :: c in Hex(n, width) ==> !('A' <= c <= 'F')
  {
    hide IsHex, HexOf, HexDigit, HexValue;
    if width > 0 {
      HexReadsBack(n / 16, width - 1);
      HexDigitIs(n % 16);
      HexSnoc(Hex(n / 16, width - 1), HexDigit(n % 16));
      FitsWithout(n, width);
    } else {
      assert HexValue("") == 0 by { NoDigits(); }
    }
  }

  lemma FitsWithout(n: nat, width: nat)
    requires width > 0
    ensures n < Pow16(width) ==> n / 16 < Pow16(width - 1)
    ensures n == 16 * (n / 16) + n % 16
  {
  }

  lemma NoDigits()
    ensures HexValue("") == 0
  {
  }

  function Pow16(n: nat): nat {
    if n == 0 then 1 else 16 * Pow16(n - 1)
  }

  /** So the template hash is sixteen digits that denote the hash of the canonical text's bytes. */
  lemma HashTextDenotes(t: Tree)
    ensures |HashText(t)| == 16 && AllHex(HashText(t)) && forall c :: c in HashText(t) ==> !('A' <= c <= 'F')
    ensures HexValue(HashText(t)) == Fnv(Bytes(Plain(Normal(t)))) as int
  {
    hide Fnv, Bytes, Plain, Normal, Hex;
    HexReadsBack(Fnv(Bytes(Plain(Normal(t)))) as int, 16);
    assert Pow16(4) == 0x1_0000;
    assert Pow16(8) == 0x1_0000 * Pow16(4);
    assert Pow16(12) == 0x1_0000 * Pow16(8);
    assert Pow16(16) == 0x1_0000 * Pow16(12);
  }
}
