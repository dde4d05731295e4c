/** Small definitions every other module shares. */
module Basics {

  datatype Option<+T> = None | Some(value: T)

  /** A header or header field, as it came. */
  datatype Header = Header(name: string, value: string)

  type Byte = b: int | 0 <= b < 0x100

  type Bytes = seq<Byte>

  /** ASCII lower-casing, the only part of `strings.ToLower` header names exercise. */
  function LowerChar(c: char): char {
    if 'A' <= c <= 'Z' then (c as int + 32) as char else c
  }

  function Lower(s: string): (r: string)
    ensures |r| == |s|
    ensures forall i :: 0 <= i < |s| ==> r[i] == LowerChar(s[i])
  {
    seq(|s|, i requires 0 <= i < |s| => LowerChar(s[i]))
  }

  function Digit(d: nat): char
    requires d < 10
  {
    ('0' as int + d) as char
  }

  predicate IsDigit(c: char) {
    '0' <= c <= '9'
  }

  function DigitValue(c: char): nat
    requires IsDigit(c)
  {
    c as int - '0' as int
  }

  function HexChar(d: int): char
    requires 0 <= d < 16
  {
    if d < 10 then ('0' as int + d) as char else ('a' as int + (d - 10)) as char
  }

  /** `strconv.Itoa` on non-negative integers. */
  function Decimal(n: nat): (r: string)
    ensures |r| > 0
    ensures forall c :: c in r ==> IsDigit(c)
  {
    if n < 10 then [Digit(n)] else Decimal(n / 10) + [Digit(n % 10)]
  }

  /** `strconv.Itoa`. */
  function Itoa(n: int): string {
    if n < 0 then "-" + Decimal(-n) else Decimal(n)
  }

  /** The value of a string of decimal digits. */
  function NumberOf(ds: string): nat
    requires forall c :: c in ds ==> IsDigit(c)
  {
    if ds == [] then 0 else 10 * NumberOf(ds[..|ds| - 1]) + DigitValue(ds[|ds| - 1])
  }

  lemma {:induction false} NumberOfDecimal(n: nat)
    ensures NumberOf(Decimal(n)) == n
  {
    var ds := Decimal(n);
    if n < 10 {
      assert ds[..0] == [];
    } else {
      NumberOfDecimal(n / 10);
      assert ds[..|ds| - 1] == Decimal(n / 10);
    }
  }

  /** `ds` spells `n` in decimal: digits, no leading zero. */
  predicate Spells(ds: string, n: nat) {
    && ds != "" && (forall c :: c in ds ==> '0' <= c <= '9') && (ds[0] == '0' ==> |ds| == 1)
    && NumberOf(ds) == n
  }

  lemma {:induction false} DecimalSpells(n: nat)
    ensures Spells(Decimal(n), n)
    ensures Decimal(n)[0] == '0' ==> n == 0
  {
    NumberOfDecimal(n);
    if n >= 10 {
      DecimalSpells(n / 10);
      assert Decimal(n)[0] == Decimal(n / 10)[0];
    }
  }

  /** Every digit, each in its place. */
  lemma DecimalExample()
    ensures Decimal(9876543210) == "9876543210"
  {
    assert Decimal(98) == "98" && Decimal(987) == "987" && Decimal(9876) == "9876" && Decimal(98765) == "98765";
    assert Decimal(987654) == "987654" && Decimal(9876543) == "9876543" && Decimal(98765432) == "98765432";
    assert Decimal(987654321) == "987654321";
  }

  /** `low` is `name` with each ASCII capital replaced by its small letter and every other character kept. */
  predicate IsLowered(name: string, low: string) {
    && |low| == |name|
    && forall i :: 0 <= i < |name| ==>
         if 'A' <= name[i] <= 'Z' then low[i] as int == name[i] as int + 32 else low[i] == name[i]
  }

  lemma LowerIsLowered(name: string)
    ensures IsLowered(name, Lower(name))
  {
  }

  /** `strings.Join`. */
  function Join(parts: seq<string>, sep: string): string {
    if parts == [] then "" else if |parts| == 1 then parts[0] else parts[0] + (sep + Join(parts[1..], sep))
  }

  function TrimEnd(s: string, cutset: string): string {
    if s != "" && s[|s| - 1] in cutset then TrimEnd(s[..|s| - 1], cutset) else s
  }

  function TrimStart(s: string, cutset: string): string {
    if s != "" && s[0] in cutset then TrimStart(s[1..], cutset) else s
  }

  /** `strings.Trim`. */
  function Trim(s: string, cutset: string): string {
    TrimEnd(TrimStart(s, cutset), cutset)
  }

  lemma {:induction false} TrimStartAll(pad: string, s: string, cutset: string)
    requires (forall c :: c in pad ==> c in cutset) && (s == "" || s[0] !in cutset)
    ensures TrimStart(pad + s, cutset) == s
  {
    if pad == "" {
      assert pad + s == s;
    } else {
      assert (pad + s)[1..] == pad[1..] + s;
      TrimStartAll(pad[1..], s, cutset);
    }
  }

  lemma {:induction false} TrimEndAll(s: string, pad: string, cutset: string)
    requires (forall c :: c in pad ==> c in cutset) && (s == "" || s[|s| - 1] !in cutset)
    ensures TrimEnd(s + pad, cutset) == s
    decreases |pad|
  {
    if pad == "" {
      assert s + pad == s;
    } else {
      assert (s + pad)[..|s + pad| - 1] == s + pad[..|pad| - 1];
      assert (s + pad)[|s + pad| - 1] == pad[|pad| - 1];
      TrimEndAll(s, pad[..|pad| - 1], cutset);
    }
  }

  /** Trimming blanks off the end stops at the first thing that is not one. */
  lemma {:induction false} TrimEndKeeps(head: string, tail: string, cutset: string)
    requires head != "" && head[|head| - 1] !in cutset
    ensures exists kept :: TrimEnd(head + tail, cutset) == head + kept
  {
    if tail == "" {
      assert head + tail == head + "";
    } else if tail[|tail| - 1] in cutset {
      assert (head + tail)[..|head + tail| - 1] == head + tail[..|tail| - 1];
      TrimEndKeeps(head, tail[..|tail| - 1], cutset);
    } else {
      assert TrimEnd(head + tail, cutset) == head + tail;
    }
  }

  /** The ASCII white space of `strings.TrimSpace`. */
  const ANYSPACE := "\t\n\U{0B}\U{0C}\r "

  predicate HasPrefix(s: string, p: string) {
    |p| <= |s| && s[..|p|] == p
  }

  /** Positions in their order. */
  ghost predicate Rising(at: seq<nat>) {
    forall a, b :: 0 <= a < b < |at| ==> at[a] < at[b]
  }

  lemma {:induction false} RisingIsUnique(at: seq<nat>, bt: seq<nat>)
    requires Rising(at) && Rising(bt) && forall i: nat :: i in at <==> i in bt
    ensures at == bt
  {
    if bt != [] { assert bt[0] in at; }
    if at != [] {
      assert at[0] in bt && bt != [] && bt[0] in at;
      assert at[0] == bt[0];
      forall i: nat
        ensures i in at[1..] <==> i in bt[1..]
      {
        assert i in at <==> i == at[0] || i in at[1..];
        assert i in bt <==> i == bt[0] || i in bt[1..];
      }
      RisingIsUnique(at[1..], bt[1..]);
    }
  }

  lemma Associate<T>(a: seq<T>, b: seq<T>, c: seq<T>)
    ensures a + b + c == a + (b + c)
  {
  }

  lemma MoveHead<T>(a: seq<T>, b: seq<T>)
    requires b != []
    ensures (a + [b[0]]) + b[1..] == a + b
  {
  }

  lemma TakeNext<T>(s: seq<T>, i: nat)
    requires i < |s|
    ensures s[..i + 1] == s[..i] + [s[i]]
  {
  }

  lemma TakeAll<T>(s: seq<T>)
    ensures s[..|s|] == s
  {
  }
}
