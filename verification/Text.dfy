/** The string operations of the C and C++ libraries that the DMR code relies on:
    decimal output and input, searching for a character, and the WWW decoding that
    libdap applies to names. */
module Text {
  import opened Wrappers

  // ---------------------------------------------------------------- decimal numbers

  predicate IsDigit(c: char) { '0' <= c <= '9' }

  function DigitOf(n: nat): char
    requires n < 10
  {
    "0123456789"[n]
  }

  function ValueOf(c: char): nat
    requires IsDigit(c)
  {
    c as int - '0' as int
  }

  /** What an output stream writes for a non-negative integer. */
  function ShowNat(n: nat): string {
    if n < 10 then [DigitOf(n)] else ShowNat(n / 10) + [DigitOf(n % 10)]
  }

  /** What an output stream writes for an integer. */
  function ShowInt(i: int): string {
    if i < 0 then "-" + ShowNat(-i) else ShowNat(i)
  }

  predicate AllDigits(s: string) { forall i :: 0 <= i < |s| ==> IsDigit(s[i]) }

  /** Length of the longest prefix of digits. */
  function DigitPrefix(s: string): (n: nat)
    ensures n <= |s| && AllDigits(s[..n])
    ensures n < |s| ==> !IsDigit(s[n])
  {
    if s == [] || !IsDigit(s[0]) then 0
    else
      var m := DigitPrefix(s[1..]);
      assert s[..m + 1] == [s[0]] + s[1..][..m];
      m + 1
  }

  function DecimalValue(s: string): nat
    requires AllDigits(s)
  {
    if s == [] then 0 else 10 * DecimalValue(s[..|s| - 1]) + ValueOf(s[|s| - 1])
  }

  /** isspace() of the C locale: a blank, or one of the codes from tab to carriage return. */
  predicate IsSpace(c: char) { c == ' ' || '\t' <= c <= '\r' }

  function SkipSpace(s: string): string {
    if s != [] && IsSpace(s[0]) then SkipSpace(s[1..]) else s
  }

  /** The common core of the library's integer readers: leading space, one sign, digits. */
  datatype Scan = Scan(negative: bool, digits: string, rest: string)

  function ScanInt(s: string): (r: Scan)
    ensures AllDigits(r.digits)
  {
    var t := SkipSpace(s);
    var signed := t != [] && t[0] in "+-";
    var u := if signed then t[1..] else t;
    var n := DigitPrefix(u);
    Scan(signed && t[0] == '-', u[..n], u[n..])
  }

  function Magnitude(r: Scan): nat
    requires AllDigits(r.digits)
  {
    DecimalValue(r.digits)
  }

  /** atoi: reads a prefix, and yields zero when there is no number. */
  function Atoi(s: string): int {
    var r := ScanInt(s);
    if r.negative then 0 - Magnitude(r) else Magnitude(r)
  }

  const TWO_TO_31: int := 0x8000_0000
  const TWO_TO_63: int := 0x8000_0000_0000_0000
  const TWO_TO_64: int := 0x1_0000_0000_0000_0000

  /** Extraction into an unsigned long that must also reach the end of the text.  A minus
      sign is accepted and negates modulo the word size. */
  function ReadUnsigned(s: string): Option<nat> {
    var r := ScanInt(s);
    var m := Magnitude(r);
    if r.digits == [] || r.rest != [] || m >= TWO_TO_64 then None
    else Some(if r.negative then (TWO_TO_64 - m) % TWO_TO_64 else m)
  }

  /** Extraction into a long long; text after the number is not looked at. */
  function ReadSigned(s: string): Option<int> {
    var r := ScanInt(s);
    var v := if r.negative then 0 - Magnitude(r) else Magnitude(r);
    if r.digits == [] || v < -TWO_TO_63 || v >= TWO_TO_63 then None else Some(v)
  }

  lemma {:induction false} ShowNatReads(n: nat)
    ensures ShowNat(n) != [] && AllDigits(ShowNat(n)) && DecimalValue(ShowNat(n)) == n
  {
    if n >= 10 {
      ShowNatReads(n / 10);
      assert ShowNat(n)[..|ShowNat(n)| - 1] == ShowNat(n / 10);
    } else {
      assert ShowNat(n)[..0] == [];
    }
  }

  lemma {:induction false} DigitPrefixAll(s: string)
    requires AllDigits(s)
    ensures DigitPrefix(s) == |s|
  {
    if s != [] { DigitPrefixAll(s[1..]); }
  }

  lemma ScanDigits(u: string)
    requires u != [] && AllDigits(u)
    ensures ScanInt(u) == Scan(false, u, [])
    ensures ScanInt("-" + u) == Scan(true, u, [])
  {
    DigitPrefixAll(u);
    assert u[..|u|] == u && u[|u|..] == [];
    assert IsDigit(u[0]) && SkipSpace(u) == u;
    var s := "-" + u;
    assert s[0] == '-' && s[1..] == u;
    assert SkipSpace(s) == s;
  }

  lemma {:induction false} SpacesSkipped(space: string, t: string)
    requires (forall i :: 0 <= i < |space| ==> IsSpace(space[i])) && (t == [] || !IsSpace(t[0]))
    ensures SkipSpace(space + t) == t
    decreases |space|
  {
    if space == [] {
      assert space + t == t;
    } else {
      assert (space + t)[1..] == space[1..] + t;
      SpacesSkipped(space[1..], t);
    }
  }

  lemma {:induction false} DigitsTaken(digits: string, rest: string)
    requires AllDigits(digits) && (rest == [] || !IsDigit(rest[0]))
    ensures DigitPrefix(digits + rest) == |digits|
    decreases |digits|
  {
    if digits == [] {
      assert digits + rest == rest;
    } else {
      assert (digits + rest)[1..] == digits[1..] + rest;
      DigitsTaken(digits[1..], rest);
    }
  }

  /** What the readers make of any text: leading space is skipped, one sign is taken, then as many
      digits as there are. */
  lemma ScanExact(space: string, sign: string, digits: string, rest: string)
    requires (forall i :: 0 <= i < |space| ==> IsSpace(space[i])) && sign in {"", "+", "-"} && AllDigits(digits)
    requires rest == [] || !IsDigit(rest[0])
    requires sign == "" && digits == "" ==> rest == [] || (!IsSpace(rest[0]) && rest[0] !in "+-")
    ensures ScanInt(space + (sign + (digits + rest))) == Scan(sign == "-", digits, rest)
  {
    hide DigitPrefix, SkipSpace;
    var u := digits + rest;
    var t := sign + u;
    DigitsTaken(digits, rest);
    assert u[..|digits|] == digits && u[|digits|..] == rest;
    assert sign != "" ==> t[0] == sign[0] && t[1..] == u;
    assert sign == "" ==> t == u;
    assert digits != [] ==> IsDigit(u[0]) && u[0] == digits[0];
    SpacesSkipped(space, t);
  }

  lemma ReadersOfScan(s: string, r: Scan)
    requires ScanInt(s) == r && AllDigits(r.digits)
    ensures var v: int := if r.negative then 0 - DecimalValue(r.digits) else DecimalValue(r.digits);
      && ReadSigned(s) == (if r.digits != [] && -TWO_TO_63 <= v < TWO_TO_63 then Some(v) else None)
      && Atoi(s) == v
      && (ReadUnsigned(s).Some? <==> r.digits != [] && r.rest == [] && DecimalValue(r.digits) < TWO_TO_64)
      && (ReadUnsigned(s).Some? ==>
            0 <= ReadUnsigned(s).value < TWO_TO_64 && (ReadUnsigned(s).value - v) % TWO_TO_64 == 0)
  {
    hide ScanInt, DecimalValue, AllDigits;
  }

  /** What the readers take.  A size has to be all of the text, and a minus sign makes it the
      number that completes it to the word size; the value of a constant may be followed by
      anything; a Dim is read without any check. */
  lemma ReadersExact(space: string, sign: string, digits: string, rest: string)
    requires (forall i :: 0 <= i < |space| ==> IsSpace(space[i])) && sign in {"", "+", "-"} && AllDigits(digits)
    requires rest == [] || !IsDigit(rest[0])
    requires sign == "" && digits == "" ==> rest == [] || (!IsSpace(rest[0]) && rest[0] !in "+-")
    ensures var s, m := space + (sign + (digits + rest)), DecimalValue(digits);
      var v: int := if sign == "-" then 0 - m else m;
      && (ReadUnsigned(s).Some? <==> digits != [] && rest == [] && m < TWO_TO_64)
      && (ReadUnsigned(s).Some? ==>
            0 <= ReadUnsigned(s).value < TWO_TO_64 && (ReadUnsigned(s).value - v) % TWO_TO_64 == 0)
      && ReadSigned(s) == (if digits != [] && -TWO_TO_63 <= v < TWO_TO_63 then Some(v) else None)
      && Atoi(s) == v
  {
    hide *;
    ScanExact(space, sign, digits, rest);
    ReadersOfScan(space + (sign + (digits + rest)), Scan(sign == "-", digits, rest));
  }

  /** Reading back a printed integer consumes all of it and finds the same number. */
  lemma ShowIntScans(i: int)
    ensures ScanInt(ShowInt(i)) == Scan(i < 0, ShowNat(if i < 0 then -i else i), [])
  {
    var m := if i < 0 then -i else i;
    ShowNatReads(m);
    ScanDigits(ShowNat(m));
  }

  /** Each reader inverts the printer on the numbers its type can hold. */
  lemma ReadersInvertShow(i: int)
    ensures Atoi(ShowInt(i)) == i
    ensures ReadUnsigned(ShowInt(i)) == Some(i) <==> 0 <= i < TWO_TO_64
    ensures ReadSigned(ShowInt(i)) == Some(i) <==> -TWO_TO_63 <= i < TWO_TO_63
  {
    ShowIntScans(i);
    ShowNatReads(if i < 0 then -i else i);
  }

  // ---------------------------------------------------------------- searching

  /** string::find of one character: its first position, or the length when absent. */
  function Find(s: string, c: char): (n: nat)
    ensures n <= |s|
    ensures forall i :: 0 <= i < n ==> s[i] != c
    ensures n < |s| ==> s[n] == c
  {
    if s == [] || s[0] == c then 0 else 1 + Find(s[1..], c)
  }

  predicate Free(s: string, c: char) { forall i :: 0 <= i < |s| ==> s[i] != c }

  lemma FindAppend(a: string, c: char, b: string)
    requires Free(a, c)
    ensures Find(a + [c] + b, c) == |a|
  {
    var s := a + [c] + b;
    assert s[|a|] == c;
    assert forall i :: 0 <= i < |a| ==> s[i] == a[i];
  }

  lemma FindFree(a: string, c: char)
    requires Free(a, c)
    ensures Find(a, c) == |a|
  {
  }

  /** Names joined by slashes. */
  function Join(path: seq<string>): string {
    if path == [] then "" else if |path| == 1 then path[0] else path[0] + "/" + Join(path[1..])
  }

  // ---------------------------------------------------------------- WWW decoding

  function HexValue(c: char): Option<nat> {
    if '0' <= c <= '9' then Some(c as int - '0' as int)
    else if 'a' <= c <= 'f' then Some(c as int - 'a' as int + 10)
    else if 'A' <= c <= 'F' then Some(c as int - 'A' as int + 10)
    else None
  }

  /** The character named by (at most) two hex digits; code zero is the empty string.  The first
      of two may also be white space or a sign. */
  function Unhex(s: string): (r: string)
    ensures |r| <= 1
  {
    var v :=
      if |s| == 2 && (IsSpace(s[0]) || s[0] in "+-") && HexValue(s[1]).Some? then
        if s[0] == '-' then (256 - HexValue(s[1]).value) % 256 else HexValue(s[1]).value
      else if s == [] || HexValue(s[0]).None? then 0
      else if |s| == 1 || HexValue(s[1]).None? then HexValue(s[0]).value
      else 16 * HexValue(s[0]).value + HexValue(s[1]).value;
    if 0 < v < 256 then [v as char] else []
  }

  /** www2id: every escape is replaced by the character it names. */
  function Www2Id(s: string): (r: string)
    ensures |r| <= |s|
  {
    if s == [] then []
    else if s[0] != '%' then [s[0]] + Www2Id(s[1..])
    else if |s| < 3 then Unhex(s[1..])
    else
      var d := Unhex(s[1..3]);
      if d == [] && |s| > 3 then [s[3]] + Www2Id(s[4..]) else d + Www2Id(s[3..])
  }

  lemma {:induction false} Www2IdPlain(s: string)
    requires Free(s, '%')
    ensures Www2Id(s) == s
  {
    if s != [] { Www2IdPlain(s[1..]); }
  }

  lemma {:induction false} Www2IdShrinks(s: string)
    requires !Free(s, '%')
    ensures |Www2Id(s)| < |s|
  {
    if s[0] != '%' {
      var i :| 0 <= i < |s| && s[i] == '%';
      assert s[1..][i - 1] == '%';
      Www2IdShrinks(s[1..]);
    }
  }

  /** Decoding leaves exactly the names without a percent sign as they are. */
  lemma Www2IdFixed(s: string)
    ensures Www2Id(s) == s <==> Free(s, '%')
  {
    hide Www2Id;
    if Free(s, '%') { Www2IdPlain(s); } else { Www2IdShrinks(s); }
  }

  /** hexstring: two lower-case hex digits. */
  function Hex(c: char): string
    requires c as int < 256
  {
    var digits := "0123456789abcdef";
    [digits[c as int / 16], digits[c as int % 16]]
  }

  /** id2www: every character that is not allowed is replaced by its escape. */
  function Id2Www(s: string, allowed: set<char>): string
    requires forall i :: 0 <= i < |s| ==> s[i] as int < 256
  {
    if s == [] then []
    else (if s[0] in allowed then [s[0]] else "%" + Hex(s[0])) + Id2Www(s[1..], allowed)
  }

  lemma HexReads(c: char)
    requires 0 < c as int < 256
    ensures Unhex(Hex(c)) == [c]
  {
    var h, l := c as int / 16, c as int % 16;
    DigitReads(h);
    DigitReads(l);
    assert 16 * h + l == c as int;
  }

  lemma DigitReads(n: nat)
    requires n < 16
    ensures HexValue("0123456789abcdef"[n]) == Some(n)
    ensures !IsSpace("0123456789abcdef"[n]) && "0123456789abcdef"[n] !in "+-"
  {
  }

  /** An escape that names no character but the one that ends strings vanishes, and the character
      behind it is not looked at, even if it begins an escape. */
  lemma {:induction false} ShieldedByZero(plain: string, x: char, y: char, c: char, rest: string)
    requires Free(plain, '%') && Unhex([x, y]) == []
    ensures Www2Id(plain + ['%', x, y, c] + rest) == plain + [c] + Www2Id(rest)
    decreases |plain|
  {
    var s := plain + ['%', x, y, c] + rest;
    if plain == [] {
      assert s[1..3] == [x, y] && s[3] == c && s[4..] == rest;
    } else {
      assert s[0] == plain[0] && s[1..] == plain[1..] + ['%', x, y, c] + rest;
      ShieldedByZero(plain[1..], x, y, c, rest);
    }
  }

  /** "%00%41" becomes "%41". */
  lemma ZeroEscape()
    ensures Www2Id("%00%41") == "%41"
  {
    ShieldedByZero("", '0', '0', '%', "41");
    assert "" + ['%', '0', '0', '%'] + "41" == "%00%41" && "" + ['%'] + "41" == "%41";
    Www2IdPlain("41");
  }

  /** Whatever is escaped, as long as the percent sign is, decoding gives the name back. */
  lemma {:induction false} EscapesReturn(s: string, allowed: set<char>)
    requires '%' !in allowed && forall i :: 0 <= i < |s| ==> 0 < s[i] as int < 256
    ensures Www2Id(Id2Www(s, allowed)) == s
    decreases |s|
  {
    if s != [] {
      EscapesReturn(s[1..], allowed);
      var rest := Id2Www(s[1..], allowed);
      assert s == [s[0]] + s[1..] && s[0] in s;
      if s[0] in allowed {
        assert ([s[0]] + rest)[1..] == rest;
      } else {
        HexReads(s[0]);
        var all := "%" + Hex(s[0]) + rest;
        assert all[0] == '%' && all[1..3] == Hex(s[0]) && all[3..] == rest;
        hide Unhex, Hex;
      }
    }
  }
}
