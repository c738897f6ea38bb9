/** The text printed for an error register loses nothing: describe_error_bits is injective. */
module ErrorText {

  datatype Entry = Entry(mask: bv64, name: string)

  type Table = seq<Entry>

  // ---- bits ----

  function Both(a: bv64, b: bv64): bv64 { a & b }

  function Either(a: bv64, b: bv64): bv64 { a | b }

  function Without(a: bv64, b: bv64): bv64 { a & !b }

  predicate OneBit(m: bv64) { m != 0 && m & (m - 1) == 0 }

  predicate Within(a: bv64, value: bv64) { a & !value == 0 }

  lemma MaskWithin(value: bv64, m: bv64)
    requires OneBit(m) && Both(value, m) != 0
    ensures Within(m, value)
  {
  }

  lemma EitherWithin(a: bv64, b: bv64, value: bv64)
    requires Within(a, value) && Within(b, value)
    ensures Within(Either(a, b), value)
  {
  }

  lemma NothingWithin(value: bv64)
    ensures Within(0, value) && Both(0, value) == 0 && Without(value, 0) == value
    ensures Either(value, 0) == value && Without(0, value) == 0
  {
  }

  lemma Recombine(value: bv64, known: bv64)
    requires Within(known, value)
    ensures Either(known, Without(value, known)) == value
    ensures Both(known, Without(value, known)) == 0
  {
  }

  lemma WithoutNext(value: bv64, known: bv64, mask: bv64)
    ensures Without(Without(value, known), mask) == Without(value, Either(known, mask))
  {
  }

  // ---- decoding ----

  predicate Hit(value: bv64, e: Entry) { Both(value, e.mask) != 0 }

  /** The names of the flags that are set, in table order. */
  function Listed(table: Table, value: bv64): seq<string> {
    if table == [] then []
    else
      var n := |table| - 1;
      Listed(table[..n], value) + if Hit(value, table[n]) then [table[n].name] else []
  }

  /** The bits that have a name. */
  function Known(table: Table, value: bv64): bv64 {
    if table == [] then 0
    else
      var n := |table| - 1;
      if Hit(value, table[n]) then Either(Known(table[..n], value), table[n].mask) else Known(table[..n], value)
  }

  function Unknown(table: Table, value: bv64): bv64 { Without(value, Known(table, value)) }

  // ---- rendering ----

  function Join(tokens: seq<string>): string {
    if tokens == [] then ""
    else if |tokens| == 1 then tokens[0]
    else tokens[0] + (", " + Join(tokens[1..]))
  }

  function Digit(d: bv64): char {
    if d == 0 then '0' else if d == 1 then '1' else if d == 2 then '2' else if d == 3 then '3'
    else if d == 4 then '4' else if d == 5 then '5' else if d == 6 then '6' else if d == 7 then '7'
    else if d == 8 then '8' else if d == 9 then '9' else if d == 10 then 'A' else if d == 11 then 'B'
    else if d == 12 then 'C' else if d == 13 then 'D' else if d == 14 then 'E' else 'F'
  }

  predicate SingleDigit(x: bv64) { x < 16 }

  function Upper(x: bv64): bv64 { x >> 4 }

  function LowDigit(x: bv64): (d: bv64)
    ensures SingleDigit(d)
  { x & 15 }

  lemma UpperLess(x: bv64)
    requires !SingleDigit(x)
    ensures Upper(x) < x
  {
  }

  /** Upper-case hexadecimal without leading zeros. */
  function Hex(x: bv64): string
    decreases x
  {
    if SingleDigit(x) then [Digit(x)]
    else
      UpperLess(x);
      Hex(Upper(x)) + [Digit(LowDigit(x))]
  }

  const UNKNOWN := "unknown_bits=0x"

  function Remainder(rest: bv64): seq<string> { if rest != 0 then [UNKNOWN + Hex(rest)] else [] }

  function Tokens(table: Table, value: bv64): seq<string> {
    Listed(table, value) + Remainder(Unknown(table, value))
  }

  lemma {:induction false} JoinAppend(tokens: seq<string>, t: string)
    ensures Join(tokens + [t]) == if tokens == [] then t else Join(tokens) + ", " + t
    decreases |tokens|
  {
    if |tokens| > 1 {
      assert (tokens + [t])[1..] == tokens[1..] + [t];
      JoinAppend(tokens[1..], t);
      assert Join(tokens + [t]) == tokens[0] + ", " + (Join(tokens[1..]) + ", " + t);
    } else if |tokens| == 1 {
      assert (tokens + [t])[1..] == [t];
    }
  }

  /** describe_error_bits. */
  method DescribeErrorBits(value: bv64, table: Table) returns (text: string)
    ensures text == if value == 0 then "" else Join(Tokens(table, value))
  {
    hide Both, Either, Without, Hex;
    if value == 0 {
      return "";
    }
    text := "";
    var first := true;
    var remaining := value;
    NothingWithin(value);
    for i := 0 to |table|
      invariant text == Join(Listed(table[..i], value))
      invariant first <==> Listed(table[..i], value) == []
      invariant remaining == Unknown(table[..i], value)
    {
      assert table[..i + 1][..i] == table[..i];
      if Both(value, table[i].mask) == 0 {
        assert Listed(table[..i + 1], value) == Listed(table[..i], value);
        continue;
      }
      WithoutNext(value, Known(table[..i], value), table[i].mask);
      assert Listed(table[..i + 1], value) == Listed(table[..i], value) + [table[i].name];
      JoinAppend(Listed(table[..i], value), table[i].name);
      if !first {
        text := text + ", ";
      }
      text := text + table[i].name;
      first := false;
      remaining := Without(remaining, table[i].mask);
    }
    assert table[..|table|] == table;
    if remaining != 0 {
      JoinAppend(Listed(table, value), UNKNOWN + Hex(remaining));
      if !first {
        text := text + ", ";
      }
      text := text + (UNKNOWN + Hex(remaining));
    } else {
      assert Tokens(table, value) == Listed(table, value);
    }
  }

  /** Masks of one bit each; distinct, non-empty names without a comma that do not look like the
      remainder. */
  ghost predicate Proper(table: Table) {
    && (forall i | 0 <= i < |table| ::
          OneBit(table[i].mask) && table[i].name != "" && ',' !in table[i].name && !(UNKNOWN <= table[i].name))
    && (forall i, k | 0 <= i < k < |table| :: table[i].name != table[k].name)
  }

  lemma ProperPrefix(table: Table)
    requires Proper(table) && table != []
    ensures Proper(table[..|table| - 1])
  {
  }

  lemma {:induction false} KnownWithin(table: Table, value: bv64)
    requires Proper(table)
    ensures Within(Known(table, value), value)
  {
    hide OneBit, Both, Either, Within;
    NothingWithin(value);
    if table != [] {
      var n := |table| - 1;
      ProperPrefix(table);
      KnownWithin(table[..n], value);
      if Hit(value, table[n]) {
        MaskWithin(value, table[n].mask);
        EitherWithin(Known(table[..n], value), table[n].mask, value);
      }
    }
  }

  /** Named and unnamed bits are disjoint and together are the value. */
  lemma Lossless(table: Table, value: bv64)
    requires Proper(table)
    ensures Either(Known(table, value), Unknown(table, value)) == value
    ensures Both(Known(table, value), Unknown(table, value)) == 0
  {
    hide Both, Either, Without, Within, Known, Proper;
    KnownWithin(table, value);
    Recombine(value, Known(table, value));
  }

  // ---- the names ----

  lemma {:induction false} ListedFrom(table: Table, value: bv64, name: string)
    requires name in Listed(table, value)
    ensures exists i | 0 <= i < |table| :: table[i].name == name
  {
    var n := |table| - 1;
    if name in Listed(table[..n], value) {
      ListedFrom(table[..n], value, name);
      var i :| 0 <= i < n && table[..n][i].name == name;
      assert table[i].name == name;
    } else {
      assert table[n].name == name;
    }
  }

  lemma LastDiffers<T>(a: seq<T>, b: seq<T>, x: T)
    requires a + [x] == b
    ensures x in b
  {
    assert b[|a|] == x;
  }

  /** Equal lists of names stand for equal bits. */
  lemma {:induction false} ListedInjective(table: Table, v: bv64, w: bv64)
    requires Proper(table) && Listed(table, v) == Listed(table, w)
    ensures Known(table, v) == Known(table, w)
  {
    hide OneBit, Hit, Either, Proper;
    if table != [] {
      var n := |table| - 1;
      var less, e := table[..n], table[n];
      ProperPrefix(table);
      LastHit(table, v, w);
      LastHit(table, w, v);
      var a, b := Listed(table, v), Listed(table, w);
      if Hit(v, e) {
        assert Listed(less, v) == a[..|a| - 1] && Listed(less, w) == b[..|b| - 1];
      } else {
        assert Listed(less, v) == a && Listed(less, w) == b;
      }
      ListedInjective(less, v, w);
    }
  }

  lemma LastHit(table: Table, v: bv64, w: bv64)
    requires table != [] && Proper(table) && Listed(table, v) == Listed(table, w)
    ensures Hit(v, table[|table| - 1]) ==> Hit(w, table[|table| - 1])
  {
    hide Hit, Proper;
    var n := |table| - 1;
    NameIsNew(table, w);
    if Hit(v, table[n]) {
      LastDiffers(Listed(table[..n], v), Listed(table, w), table[n].name);
    }
  }

  lemma NameIsNew(table: Table, u: bv64)
    requires table != [] && Proper(table)
    ensures table[|table| - 1].name !in Listed(table[..|table| - 1], u)
  {
    hide OneBit;
    var n := |table| - 1;
    assert forall i | 0 <= i < n :: table[..n][i] == table[i];
    if table[n].name in Listed(table[..n], u) {
      ListedFrom(table[..n], u, table[n].name);
    }
  }

  // ---- the text ----

  /** The value of a digit. */
  function Value(d: char): bv64 {
    if d == '0' then 0 else if d == '1' then 1 else if d == '2' then 2 else if d == '3' then 3
    else if d == '4' then 4 else if d == '5' then 5 else if d == '6' then 6 else if d == '7' then 7
    else if d == '8' then 8 else if d == '9' then 9 else if d == 'A' then 10 else if d == 'B' then 11
    else if d == 'C' then 12 else if d == 'D' then 13 else if d == 'E' then 14 else 15
  }

  lemma DigitValue(x: bv64)
    requires SingleDigit(x)
    ensures Value(Digit(x)) == x
  {
  }

  lemma DigitInjective(x: bv64, y: bv64)
    requires SingleDigit(x) && SingleDigit(y) && Digit(x) == Digit(y)
    ensures x == y
  {
    hide Digit, Value, SingleDigit;
    DigitValue(x);
    DigitValue(y);
  }

  lemma SplitDigit(x: bv64, y: bv64)
    requires Upper(x) == Upper(y) && LowDigit(x) == LowDigit(y)
    ensures x == y
  {
  }

  lemma HexLength(x: bv64)
    ensures |Hex(x)| >= 1
    ensures |Hex(x)| == 1 <==> SingleDigit(x)
    decreases x
  {
    hide Digit, Upper, SingleDigit, LowDigit;
    if !SingleDigit(x) {
      UpperLess(x);
      HexLength(Upper(x));
    }
  }

  lemma {:induction false} HexInjective(x: bv64, y: bv64)
    requires Hex(x) == Hex(y)
    ensures x == y
    decreases x
  {
    hide Digit, Upper, SingleDigit, LowDigit;
    HexLength(x);
    HexLength(y);
    if SingleDigit(x) {
      assert Digit(x) == Hex(x)[0] && Digit(y) == Hex(y)[0];
      DigitInjective(x, y);
    } else {
      var a, b := Hex(x), Hex(y);
      UpperLess(x);
      assert Hex(Upper(x)) == a[..|a| - 1] && Hex(Upper(y)) == b[..|b| - 1];
      assert Digit(LowDigit(x)) == a[|a| - 1] && Digit(LowDigit(y)) == b[|b| - 1];
      HexInjective(Upper(x), Upper(y));
      DigitInjective(LowDigit(x), LowDigit(y));
      SplitDigit(x, y);
    }
  }

  lemma {:induction false} HexPlain(x: bv64)
    ensures ',' !in Hex(x)
    decreases x
  {
    hide Upper, SingleDigit, LowDigit;
    if !SingleDigit(x) {
      UpperLess(x);
      HexPlain(Upper(x));
    }
  }

  lemma Overlap<T>(x: seq<T>, y: seq<T>, r: seq<T>, s: seq<T>)
    requires x + r == y + s && |x| < |y|
    ensures r != [] && r[0] == y[|x|]
  {
    var t := x + r;
    assert t[|x|] == r[0] && t[|x|] == y[|x|];
  }

  lemma NotShorter(x: string, y: string, r: string, s: string)
    requires ',' !in y && (r == "" || r[0] == ',') && x + r == y + s
    ensures |x| >= |y|
  {
    if |x| < |y| {
      Overlap(x, y, r, s);
    }
  }

  lemma CommaCut(x: string, y: string, r: string, s: string)
    requires ',' !in x && ',' !in y
    requires (r == "" || r[0] == ',') && (s == "" || s[0] == ',')
    requires x + r == y + s
    ensures x == y && r == s
  {
    var t := x + r;
    NotShorter(x, y, r, s);
    NotShorter(y, x, s, r);
    assert x == t[..|x|] && r == t[|x|..] && y == t[..|y|] && s == t[|y|..];
  }

  predicate Plain(tokens: seq<string>) {
    forall i | 0 <= i < |tokens| :: tokens[i] != "" && ',' !in tokens[i]
  }

  function Tail(tokens: seq<string>): string { if |tokens| <= 1 then "" else ", " + Join(tokens[1..]) }

  lemma JoinParts(a: seq<string>)
    requires a != []
    ensures Join(a) == a[0] + Tail(a)
    ensures Tail(a) == "" <==> |a| == 1
    ensures Tail(a) == "" || Tail(a)[0] == ','
    ensures |a| > 1 ==> Tail(a)[2..] == Join(a[1..])
    ensures a == [a[0]] + a[1..]
  {
    if |a| == 1 {
      assert a[0] + "" == a[0];
    } else {
      var rest := Join(a[1..]);
      hide Join;
      assert (", " + rest)[2..] == rest;
    }
  }

  lemma {:induction false} JoinInjective(a: seq<string>, b: seq<string>)
    requires Plain(a) && Plain(b) && Join(a) == Join(b)
    ensures a == b
    decreases |a|
  {
    if a == [] || b == [] {
    } else {
      hide Join, Tail;
      JoinParts(a);
      JoinParts(b);
      CommaCut(a[0], b[0], Tail(a), Tail(b));
      assert Plain(a[1..]) && Plain(b[1..]);
      if |a| > 1 {
        JoinInjective(a[1..], b[1..]);
      }
    }
  }

  lemma {:induction false} ListedPlain(table: Table, value: bv64)
    requires Proper(table)
    ensures Plain(Listed(table, value))
    ensures forall i | 0 <= i < |Listed(table, value)| :: !(UNKNOWN <= Listed(table, value)[i])
  {
    hide OneBit;
    if table != [] {
      ProperPrefix(table);
      ListedPlain(table[..|table| - 1], value);
    }
  }

  lemma TokensPlain(table: Table, value: bv64)
    requires Proper(table)
    ensures Plain(Tokens(table, value))
  {
    hide OneBit, Listed, Hex;
    ListedPlain(table, value);
    HexPlain(Unknown(table, value));
  }

  lemma NoLonger(a: seq<string>, b: seq<string>, x: seq<string>, y: seq<string>)
    requires forall i | 0 <= i < |b| :: !(UNKNOWN <= b[i])
    requires (x != [] ==> UNKNOWN <= x[0]) && a + x == b + y
    ensures |a| >= |b|
  {
    if |a| < |b| {
      Overlap(a, b, x, y);
    }
  }

  /** The remainder token tells the two halves of a token list apart. */
  lemma SplitTokens(a: seq<string>, b: seq<string>, x: seq<string>, y: seq<string>)
    requires (forall i | 0 <= i < |a| :: !(UNKNOWN <= a[i])) && (forall i | 0 <= i < |b| :: !(UNKNOWN <= b[i]))
    requires (x != [] ==> UNKNOWN <= x[0]) && (y != [] ==> UNKNOWN <= y[0])
    requires a + x == b + y
    ensures a == b && x == y
  {
    var t := a + x;
    NoLonger(a, b, x, y);
    NoLonger(b, a, y, x);
    assert a == t[..|a|] && x == t[|a|..] && b == t[..|b|] && y == t[|b|..];
  }

  lemma RemainderMarked(rest: bv64)
    ensures Remainder(rest) != [] ==> UNKNOWN <= Remainder(rest)[0]
  {
  }

  lemma RemainderInjective(x: bv64, y: bv64)
    requires Remainder(x) == Remainder(y)
    ensures x == y
  {
    hide Hex;
    if x != 0 {
      assert Hex(x) == (UNKNOWN + Hex(x))[|UNKNOWN|..];
      assert Hex(y) == (UNKNOWN + Hex(y))[|UNKNOWN|..];
      HexInjective(x, y);
    }
  }

  /** For every proper table, two values with the same description are the same value. */
  lemma DescriptionInjective(table: Table, v: bv64, w: bv64)
    requires Proper(table)
    requires Join(Tokens(table, v)) == Join(Tokens(table, w))
    ensures v == w
  {
    hide OneBit, Listed, Hex, Join, Known, Proper, Unknown, Plain, Remainder, Either, Both;
    TokensPlain(table, v);
    TokensPlain(table, w);
    JoinInjective(Tokens(table, v), Tokens(table, w));
    ListedPlain(table, v);
    ListedPlain(table, w);
    var x, y := Remainder(Unknown(table, v)), Remainder(Unknown(table, w));
    RemainderMarked(Unknown(table, v));
    RemainderMarked(Unknown(table, w));
    SplitTokens(Listed(table, v), Listed(table, w), x, y);
    ListedInjective(table, v, w);
    RemainderInjective(Unknown(table, v), Unknown(table, w));
    Lossless(table, v);
    Lossless(table, w);
  }

  lemma {:induction false} NothingListed(table: Table, value: bv64)
    ensures value == 0 ==> Listed(table, value) == []
    ensures Listed(table, value) == [] ==> Known(table, value) == 0
  {
    hide Both, Either;
    if table != [] {
      NothingListed(table[..|table| - 1], value);
      NothingWithin(table[|table| - 1].mask);
    }
  }

  /** Zero has nothing to describe, and nothing else has; for a proper table it is described by the empty
      text, and nothing else is. */
  lemma ZeroDescription(table: Table, value: bv64)
    ensures Tokens(table, value) == [] <==> value == 0
    ensures Proper(table) ==> (Join(Tokens(table, value)) == "" <==> value == 0)
  {
    hide Listed, Known, Without, Hex, Proper;
    NothingListed(table, value);
    NothingWithin(value);
    NoTokens(table);
    if Proper(table) && Join(Tokens(table, value)) == "" {
      DescriptionInjective(table, value, 0);
    }
  }

  lemma NoTokens(table: Table)
    ensures Tokens(table, 0) == []
  {
    hide Listed, Known, Without, Hex;
    NothingListed(table, 0);
    NothingWithin(0);
  }
}
