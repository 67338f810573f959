/** Base64 as the services use it: the encoders of sections 4 and 5 of RFC 4648 and the tolerant
    decoder of Python's `base64` module, which both Python services call without `validate`. */
module Base64 {
  import opened Common

  type Sextet = v: int | 0 <= v < 64

  /** The two alphabets differ only in the symbols for 62 and 63. */
  datatype Alphabet = Standard | UrlSafe

  function Symbol(v: Sextet, alphabet: Alphabet): char {
    if v < 26 then ('A' as int + v) as char
    else if v < 52 then ('a' as int + (v - 26)) as char
    else if v < 62 then ('0' as int + (v - 52)) as char
    else if alphabet.Standard? then (if v == 62 then '+' else '/')
    else (if v == 62 then '-' else '_')
  }

  /** The decoder's table: defined on the standard alphabet only. */
  function Value(c: char): Option<Sextet> {
    if 'A' <= c <= 'Z' then Some(c as int - 'A' as int)
    else if 'a' <= c <= 'z' then Some(c as int - 'a' as int + 26)
    else if '0' <= c <= '9' then Some(c as int - '0' as int + 52)
    else if c == '+' then Some(62)
    else if c == '/' then Some(63)
    else None
  }

  function Encode(bytes: seq<Byte>, alphabet: Alphabet): string {
    if |bytes| == 0 then ""
    else if |bytes| == 1 then
      [Symbol(bytes[0] / 4, alphabet), Symbol(bytes[0] % 4 * 16, alphabet), '=', '=']
    else if |bytes| == 2 then
      [Symbol(bytes[0] / 4, alphabet), Symbol(bytes[0] % 4 * 16 + bytes[1] / 16, alphabet),
       Symbol(bytes[1] % 16 * 4, alphabet), '=']
    else
      Group(bytes[0], bytes[1], bytes[2], alphabet) + Encode(bytes[3..], alphabet)
  }

  function Group(b0: Byte, b1: Byte, b2: Byte, alphabet: Alphabet): string {
    [Symbol(b0 / 4, alphabet), Symbol(b0 % 4 * 16 + b1 / 16, alphabet),
     Symbol(b1 % 16 * 4 + b2 / 64, alphabet), Symbol(b2 % 64, alphabet)]
  }

  /** The decoder's registers: position in the current group of four, bits carried over, number
      of consecutive pad characters, bytes produced, and whether a complete pad ended the input. */
  datatype Scan = Scan(quad: nat, left: nat, pads: nat, out: seq<Byte>, stopped: bool)

  function Advance(st: Scan, c: char): Scan {
    if c == '=' then
      if st.quad >= 2 && st.quad + st.pads + 1 >= 4 then st.(pads := st.pads + 1, stopped := true)
      else if st.quad >= 2 then st.(pads := st.pads + 1)
      else st
    else match Value(c)
      case None => st
      case Some(v) => Push(st, v)
  }

  function Push(st: Scan, v: Sextet): Scan {
    if st.quad == 0 then Scan(1, v, 0, st.out, false)
    else if st.quad == 1 then Scan(2, v % 16, 0, st.out + [(st.left * 4 + v / 16) % 256], false)
    else if st.quad == 2 then Scan(3, v % 4, 0, st.out + [(st.left * 16 + v / 4) % 256], false)
    else Scan(0, 0, 0, st.out + [(st.left * 64 + v) % 256], false)
  }

  function ScanAll(st: Scan, s: string): Scan
    decreases |s|
  {
    if s == "" || st.stopped then st else ScanAll(Advance(st, s[0]), s[1..])
  }

  /** `binascii.a2b_base64` in its default, non-strict mode.  None stands for `binascii.Error`. */
  function Decode(s: string): Option<seq<Byte>> {
    var end := ScanAll(Scan(0, 0, 0, [], false), s);
    if end.stopped || end.quad == 0 then Some(end.out) else None
  }

  predicate Ascii(s: string) { forall c :: c in s ==> c as int < 128 }

  function Translate(s: string): string {
    seq(|s|, i requires 0 <= i < |s| => if s[i] == '-' then '+' else if s[i] == '_' then '/' else s[i])
  }

  /** `base64.urlsafe_b64decode` on a `str`: None stands for the ValueError of a non-ASCII string
      and for `binascii.Error`; neither is caught by the sealer. */
  function UrlSafeDecode(s: string): Option<seq<Byte>> {
    if Ascii(s) then Decode(Translate(s)) else None
  }

  // ---------- the encoders and the decoder are inverse ----------

  lemma SymbolValue(v: Sextet)
    ensures Value(Symbol(v, Standard)) == Some(v) && Symbol(v, Standard) != '='
  {
  }

  lemma ScanChar(st: Scan, c: char, rest: string)
    requires !st.stopped
    ensures ScanAll(st, [c] + rest) == ScanAll(Advance(st, c), rest)
  {
    assert ([c] + rest)[1..] == rest;
  }

  lemma ScanSymbol(st: Scan, v: Sextet, rest: string)
    requires !st.stopped
    ensures ScanAll(st, [Symbol(v, Standard)] + rest) == ScanAll(Push(st, v), rest)
  {
    SymbolValue(v);
    ScanChar(st, Symbol(v, Standard), rest);
  }

  lemma Sextets3(b0: Byte, b1: Byte, b2: Byte)
    ensures var (w, x, y, z) := (b0 / 4, b0 % 4 * 16 + b1 / 16, b1 % 16 * 4 + b2 / 64, b2 % 64);
            && (w * 4 + x / 16) % 256 == b0 && x % 16 == b1 / 16
            && (x % 16 * 16 + y / 4) % 256 == b1 && y % 4 == b2 / 64
            && (y % 4 * 64 + z) % 256 == b2
  {
  }

  /** The four sextets of a group carry its three octets. */
  lemma PushGroup(st: Scan, b0: Byte, b1: Byte, b2: Byte)
    requires st.quad == 0
    ensures Push(Push(Push(Push(st, b0 / 4), b0 % 4 * 16 + b1 / 16), b1 % 16 * 4 + b2 / 64), b2 % 64)
         == Scan(0, 0, 0, st.out + [b0, b1, b2], false)
  {
    Sextets3(b0, b1, b2);
    var s1 := Push(st, b0 / 4);
    var s2 := Push(s1, b0 % 4 * 16 + b1 / 16);
    assert s2 == Scan(2, b1 / 16, 0, st.out + [b0], false);
    var s3 := Push(s2, b1 % 16 * 4 + b2 / 64);
    assert s3 == Scan(3, b2 / 64, 0, st.out + [b0] + [b1], false);
    var s4 := Push(s3, b2 % 64);
    assert s4 == Scan(0, 0, 0, st.out + [b0] + [b1] + [b2], false);
    assert st.out + [b0] + [b1] + [b2] == st.out + [b0, b1, b2];
  }

  lemma ScanFour(st: Scan, a: Sextet, b: Sextet, c: Sextet, d: Sextet, rest: string)
    requires st.quad == 0 && !st.stopped
    ensures ScanAll(st, [Symbol(a, Standard), Symbol(b, Standard), Symbol(c, Standard), Symbol(d, Standard)] + rest)
         == ScanAll(Push(Push(Push(Push(st, a), b), c), d), rest)
  {
    var w, x, y, z := Symbol(a, Standard), Symbol(b, Standard), Symbol(c, Standard), Symbol(d, Standard);
    assert [w, x, y, z] + rest == [w] + ([x] + ([y] + ([z] + rest)));
    ScanSymbol(st, a, [x] + ([y] + ([z] + rest)));
    ScanSymbol(Push(st, a), b, [y] + ([z] + rest));
    ScanSymbol(Push(Push(st, a), b), c, [z] + rest);
    ScanSymbol(Push(Push(Push(st, a), b), c), d, rest);
  }

  lemma ScanGroup(st: Scan, b0: Byte, b1: Byte, b2: Byte, rest: string)
    requires st.quad == 0 && !st.stopped
    ensures ScanAll(st, Group(b0, b1, b2, Standard) + rest)
         == ScanAll(Scan(0, 0, 0, st.out + [b0, b1, b2], false), rest)
  {
    ScanFour(st, b0 / 4, b0 % 4 * 16 + b1 / 16, b1 % 16 * 4 + b2 / 64, b2 % 64, rest);
    PushGroup(st, b0, b1, b2);
  }

  lemma ScanOneLeft(st: Scan, b0: Byte)
    requires st.quad == 0 && !st.stopped
    ensures var end := ScanAll(st, Encode([b0], Standard)); end.stopped && end.out == st.out + [b0]
  {
    var w, x := Symbol(b0 / 4, Standard), Symbol(b0 % 4 * 16, Standard);
    assert Encode([b0], Standard) == [w] + ([x] + ("=" + ("=" + "")));
    ScanSymbol(st, b0 / 4, [x] + ("=" + ("=" + "")));
    ScanSymbol(Push(st, b0 / 4), b0 % 4 * 16, "=" + ("=" + ""));
    var s2 := Push(Push(st, b0 / 4), b0 % 4 * 16);
    assert s2.out == st.out + [b0];
    ScanChar(s2, '=', "=" + "");
    ScanChar(Advance(s2, '='), '=', "");
  }

  lemma ScanTwoLeft(st: Scan, b0: Byte, b1: Byte)
    requires st.quad == 0 && !st.stopped
    ensures var end := ScanAll(st, Encode([b0, b1], Standard)); end.stopped && end.out == st.out + [b0, b1]
  {
    var a, b, c := b0 / 4, b0 % 4 * 16 + b1 / 16, b1 % 16 * 4;
    var w, x, y := Symbol(a, Standard), Symbol(b, Standard), Symbol(c, Standard);
    assert Encode([b0, b1], Standard) == [w] + ([x] + ([y] + ("=" + "")));
    ScanSymbol(st, a, [x] + ([y] + ("=" + "")));
    ScanSymbol(Push(st, a), b, [y] + ("=" + ""));
    ScanSymbol(Push(Push(st, a), b), c, "=" + "");
    PushTwo(st, b0, b1);
    ScanChar(Push(Push(Push(st, a), b), c), '=', "");
  }

  lemma PushTwo(st: Scan, b0: Byte, b1: Byte)
    requires st.quad == 0
    ensures Push(Push(Push(st, b0 / 4), b0 % 4 * 16 + b1 / 16), b1 % 16 * 4) == Scan(3, 0, 0, st.out + [b0, b1], false)
  {
    var s2 := Push(Push(st, b0 / 4), b0 % 4 * 16 + b1 / 16);
    assert s2 == Scan(2, b1 / 16, 0, st.out + [b0], false);
    assert Push(s2, b1 % 16 * 4) == Scan(3, 0, 0, st.out + [b0] + [b1], false);
    assert st.out + [b0] + [b1] == st.out + [b0, b1];
  }

  lemma {:induction false} ScanEncoded(st: Scan, bytes: seq<Byte>)
    requires st.quad == 0 && !st.stopped
    ensures var end := ScanAll(st, Encode(bytes, Standard));
            (end.stopped || end.quad == 0) && end.out == st.out + bytes
    decreases |bytes|
  {
    if |bytes| == 0 {
      assert st.out + bytes == st.out;
    } else if |bytes| == 1 {
      ScanOneLeft(st, bytes[0]);
      assert bytes == [bytes[0]];
    } else if |bytes| == 2 {
      ScanTwoLeft(st, bytes[0], bytes[1]);
      assert bytes == [bytes[0], bytes[1]];
    } else {
      ScanGroup(st, bytes[0], bytes[1], bytes[2], Encode(bytes[3..], Standard));
      ScanEncoded(Scan(0, 0, 0, st.out + bytes[..3], false), bytes[3..]);
      assert bytes[..3] == [bytes[0], bytes[1], bytes[2]];
      assert st.out + bytes[..3] + bytes[3..] == st.out + bytes;
    }
  }

  lemma TranslateSymbol(v: Sextet, alphabet: Alphabet)
    ensures Translate([Symbol(v, alphabet)]) == [Symbol(v, Standard)] && Symbol(v, alphabet) as int < 128
  {
  }

  lemma TranslateConcat(a: string, b: string)
    ensures Translate(a + b) == Translate(a) + Translate(b)
  {
  }

  lemma TranslateFour(a: Sextet, b: Sextet, c: Sextet, d: Sextet, alphabet: Alphabet)
    ensures Translate([Symbol(a, alphabet), Symbol(b, alphabet), Symbol(c, alphabet), Symbol(d, alphabet)])
         == [Symbol(a, Standard), Symbol(b, Standard), Symbol(c, Standard), Symbol(d, Standard)]
    ensures Ascii([Symbol(a, alphabet), Symbol(b, alphabet), Symbol(c, alphabet), Symbol(d, alphabet)])
  {
    TranslateSymbol(a, alphabet);
    TranslateSymbol(b, alphabet);
    TranslateSymbol(c, alphabet);
    TranslateSymbol(d, alphabet);
  }

  lemma TranslateGroup(b0: Byte, b1: Byte, b2: Byte, alphabet: Alphabet)
    ensures Translate(Group(b0, b1, b2, alphabet)) == Group(b0, b1, b2, Standard) && Ascii(Group(b0, b1, b2, alphabet))
  {
    TranslateFour(b0 / 4, b0 % 4 * 16 + b1 / 16, b1 % 16 * 4 + b2 / 64, b2 % 64, alphabet);
  }

  lemma {:induction false} TranslateEncoded(bytes: seq<Byte>, alphabet: Alphabet)
    ensures Translate(Encode(bytes, alphabet)) == Encode(bytes, Standard)
    ensures Ascii(Encode(bytes, alphabet))
    decreases |bytes|
  {
    if |bytes| == 0 {
    } else if |bytes| == 1 {
      TranslateSymbol(bytes[0] / 4, alphabet);
      TranslateSymbol(bytes[0] % 4 * 16, alphabet);
    } else if |bytes| == 2 {
      TranslateSymbol(bytes[0] / 4, alphabet);
      TranslateSymbol(bytes[0] % 4 * 16 + bytes[1] / 16, alphabet);
      TranslateSymbol(bytes[1] % 16 * 4, alphabet);
    } else {
      TranslateGroup(bytes[0], bytes[1], bytes[2], alphabet);
      TranslateEncoded(bytes[3..], alphabet);
      hide Translate, Group, Symbol;
      TranslateConcat(Group(bytes[0], bytes[1], bytes[2], alphabet), Encode(bytes[3..], alphabet));
    }
  }

  /** Both legs: what the API gateway forwards reaches the sealer intact in either alphabet, and
      what the sealer prints reaches the validator intact, for every padding case. */
  lemma RoundTrip(bytes: seq<Byte>, alphabet: Alphabet)
    ensures UrlSafeDecode(Encode(bytes, alphabet)) == Some(bytes)
    ensures Decode(Encode(bytes, Standard)) == Some(bytes)
  {
    TranslateEncoded(bytes, alphabet);
    ScanEncoded(Scan(0, 0, 0, [], false), bytes);
    assert [] + bytes == bytes;
  }

  /** Hence the sealer's printer is injective. */
  lemma EncodeInjective(a: seq<Byte>, b: seq<Byte>)
    requires Encode(a, Standard) == Encode(b, Standard)
    ensures a == b
  {
    RoundTrip(a, Standard);
    RoundTrip(b, Standard);
  }

  // ---------- what the decoder makes of any text ----------

  /** Both tables are Tables 1 and 2 of RFC 4648: three runs of consecutive characters and the two last
      symbols; and the decoder's table is the inverse of the standard one. */
  lemma TablesAreRfc4648(v: Sextet, c: char, alphabet: Alphabet)
    ensures Symbol(0, alphabet) == 'A' && Symbol(25, alphabet) == 'Z' && Symbol(26, alphabet) == 'a'
    ensures Symbol(51, alphabet) == 'z' && Symbol(52, alphabet) == '0' && Symbol(61, alphabet) == '9'
    ensures v < 61 && v !in {25, 51} ==> Symbol(v + 1, alphabet) as int == Symbol(v, alphabet) as int + 1
    ensures Symbol(62, Standard) == '+' && Symbol(63, Standard) == '/'
    ensures Symbol(62, UrlSafe) == '-' && Symbol(63, UrlSafe) == '_'
    ensures Value(c) == Some(v) <==> c == Symbol(v, Standard)
  {
  }

  predicate Significant(c: char) {
    'A' <= c <= 'Z' || 'a' <= c <= 'z' || '0' <= c <= '9' || c in {'+', '/', '='}
  }

  /** The text without the characters that are neither symbols nor padding. */
  function Strip(s: string): string {
    if s == "" then "" else (if Significant(s[0]) then [s[0]] else "") + Strip(s[1..])
  }

  lemma {:induction false} ScanStripped(st: Scan, s: string)
    ensures ScanAll(st, s) == ScanAll(st, Strip(s))
    decreases |s|
  {
    if s != "" && !st.stopped {
      ScanStripped(Advance(st, s[0]), s[1..]);
      if Significant(s[0]) {
        ScanChar(st, s[0], Strip(s[1..]));
      } else {
        assert Advance(st, s[0]) == st;
        assert Strip(s) == Strip(s[1..]);
      }
    }
  }

  /** The decoder is tolerant: line breaks and anything else outside the alphabet change nothing,
      wherever they stand. */
  lemma DecodeIgnoresForeign(s: string)
    ensures Decode(s) == Decode(Strip(s))
  {
    ScanStripped(Scan(0, 0, 0, [], false), s);
  }

  /** The values of the symbols in the text. */
  function Sextets(t: string): seq<Sextet> {
    if t == "" then [] else
    Sextets(t[..|t| - 1]) + (match Value(t[|t| - 1]) case Some(v) => [v] case None => [])
  }

  /** At `p` the padding of a started group of four is complete, which ends the input. */
  predicate PadComplete(t: string, p: nat)
    requires p < |t|
  {
    t[p] == '=' && match |Sextets(t[..p])| % 4
                   case 3 => true
                   case 2 => p > 0 && t[p - 1] == '='
                   case _ => false
  }

  /** `end` is where the decoder stops reading: the first complete padding, or else the end. */
  predicate EndsAt(t: string, end: nat) {
    && end <= |t|
    && (forall p :: 0 <= p < end ==> !PadComplete(t, p))
    && (end < |t| ==> PadComplete(t, end))
  }

  /** Octet `k` of the bit string that the sextets spell. */
  function Octet(v: seq<Sextet>, k: nat): int
    requires k < |v| * 3 / 4
  {
    var n := k / 3 * 4 + k % 3;
    var x: int, y: int := v[n], v[n + 1];
    if k % 3 == 0 then x * 4 + y / 16 else if k % 3 == 1 then x % 16 * 16 + y / 4 else x % 4 * 64 + y
  }

  /** The octets spelled by whole sextets; left-over bits are dropped. */
  predicate Spells(v: seq<Sextet>, out: seq<Byte>) {
    |out| == |v| * 3 / 4 && forall k :: 0 <= k < |out| ==> out[k] == Octet(v, k)
  }

  /** The scanner after reading `t`, which completed no padding. */
  predicate Reading(st: Scan, t: string) {
    var v := Sextets(t);
    && !st.stopped && (forall p :: 0 <= p < |t| ==> !PadComplete(t, p))
    && st.quad == |v| % 4 && Spells(v, st.out)
    && Carried(st.left, v)
    && (st.quad == 2 ==> st.pads == if t != "" && t[|t| - 1] == '=' then 1 else 0)
    && (st.quad == 3 ==> st.pads == 0)
  }

  lemma OctetFrame(v: seq<Sextet>, x: Sextet, k: nat)
    requires k < |v| * 3 / 4
    ensures Octet(v + [x], k) == Octet(v, k)
  {
  }

  lemma Octets(n: nat, q: nat, r: nat)
    requires n == 4 * q + r && r < 4
    ensures n * 3 / 4 == 3 * q + if r == 0 then 0 else r - 1
    ensures n / 4 == q && n % 4 == r
    ensures r > 0 ==> (3 * q + r - 1) / 3 == q && (3 * q + r - 1) % 3 == r - 1
  {
  }

  /** The octet that the sextet `x` completes after `y`, when it is the `r`-th of its group. */
  function Completed(y: int, x: int, r: nat): int {
    if r == 1 then y * 4 + x / 16 else if r == 2 then y % 16 * 16 + x / 4 else y % 4 * 64 + x
  }

  lemma LastOctet(v: seq<Sextet>, x: Sextet, q: nat, r: nat)
    requires |v| == 4 * q + r && 0 < r < 4
    ensures (|v| + 1) * 3 / 4 == 3 * q + r && |v| * 3 / 4 == 3 * q + r - 1
    ensures Octet(v + [x], 3 * q + r - 1) == Completed(v[|v| - 1], x, r)
  {
    Octets(|v|, q, r);
    if r == 3 { Octets(|v| + 1, q + 1, 0); } else { Octets(|v| + 1, q, r + 1); }
  }

  predicate Carried(left: nat, v: seq<Sextet>) {
    match |v| % 4
    case 0 => true
    case 1 => left == v[|v| - 1]
    case 2 => left == v[|v| - 1] % 16
    case _ => left == v[|v| - 1] % 4
  }

  lemma CompletedIsOctet(y: Sextet, x: Sextet, r: nat)
    requires 0 < r < 4
    ensures 0 <= Completed(y, x, r) < 256
  {
    assert 0 <= x / 16 < 4 && 0 <= x / 4 < 16 && 0 <= y % 16 < 16 && 0 <= y % 4 < 4;
  }

  lemma PushOut(st: Scan, y: Sextet, x: Sextet)
    requires 0 < st.quad < 4 && st.left == if st.quad == 1 then y else if st.quad == 2 then y % 16 else y % 4
    ensures 0 <= Completed(y, x, st.quad) < 256 && Push(st, x).out == st.out + [Completed(y, x, st.quad)]
  {
    CompletedIsOctet(y, x, st.quad);
    var z := Completed(y, x, st.quad);
    assert z % 256 == z;
    assert z == if st.quad == 1 then st.left * 4 + x / 16
                else if st.quad == 2 then st.left * 16 + x / 4 else st.left * 64 + x;
    hide Completed;
  }

  lemma PushOctet(st: Scan, v: seq<Sextet>, x: Sextet)
    requires st.quad == |v| % 4 && |st.out| == |v| * 3 / 4 && Carried(st.left, v)
    ensures var out := Push(st, x).out;
            if st.quad == 0 then out == st.out && |v + [x]| * 3 / 4 == |st.out|
            else |v + [x]| * 3 / 4 == |st.out| + 1 && out == st.out + [Octet(v + [x], |st.out|)]
  {
    var q, r := |v| / 4, |v| % 4;
    Octets(|v|, q, r);
    if r == 0 {
      Octets(|v| + 1, q, 1);
    } else {
      PushOut(st, v[|v| - 1], x);
      hide Push, Octet, Completed;
      LastOctet(v, x, q, r);
    }
  }

  lemma PushCarries(st: Scan, v: seq<Sextet>, x: Sextet)
    requires st.quad == |v| % 4
    ensures Push(st, x).quad == |v + [x]| % 4 && Carried(Push(st, x).left, v + [x])
  {
    var r := |v| % 4;
    assert |v + [x]| % 4 == if r == 3 then 0 else r + 1;
  }

  lemma PushSpells(st: Scan, v: seq<Sextet>, x: Sextet)
    requires st.quad == |v| % 4 && Spells(v, st.out) && Carried(st.left, v)
    ensures var next := Push(st, x);
            next.quad == |v + [x]| % 4 && Spells(v + [x], next.out) && Carried(next.left, v + [x])
  {
    PushOctet(st, v, x);
    PushCarries(st, v, x);
    hide Octet, Push, Carried;
    forall k | 0 <= k < |st.out| ensures Octet(v + [x], k) == Octet(v, k) { OctetFrame(v, x, k); }
  }

  lemma PadFrame(t: string, c: char, p: nat)
    requires p < |t|
    ensures PadComplete(t + [c], p) == PadComplete(t, p)
  {
    assert (t + [c])[..p] == t[..p];
  }

  lemma ReadChar(st: Scan, t: string, c: char)
    requires Reading(st, t) && Significant(c)
    ensures if PadComplete(t + [c], |t|) then Advance(st, c).stopped && Advance(st, c).out == st.out
            else Reading(Advance(st, c), t + [c])
  {
    var u := t + [c];
    assert u[..|t|] == t && u[|u| - 1] == c;
    forall p | 0 <= p < |t| ensures !PadComplete(u, p) { PadFrame(t, c, p); }
    assert c != '=' ==> Value(c).Some?;
    if c != '=' {
      PushSpells(st, Sextets(t), Value(c).value);
    }
  }

  lemma {:induction false} ScanReads(st: Scan, t: string, rest: string, end: nat)
    requires Reading(st, t) && (forall k :: 0 <= k < |rest| ==> Significant(rest[k]))
    requires EndsAt(t + rest, end) && end >= |t|
    ensures var last := ScanAll(st, rest);
            && (last.stopped <==> end < |t + rest|)
            && (!last.stopped ==> last.quad == |Sextets((t + rest)[..end])| % 4)
            && Spells(Sextets((t + rest)[..end]), last.out)
    decreases |rest|
  {
    var all := t + rest;
    if rest == "" {
      assert all[..end] == t;
    } else {
      var c := rest[0];
      ReadChar(st, t, c);
      assert all == (t + [c]) + rest[1..] && all[..|t|] == t && (t + [c])[..|t|] == t;
      assert all[|t|] == c && (|t| > 0 ==> all[|t| - 1] == (t + [c])[|t| - 1]);
      assert PadComplete(all, |t|) == PadComplete(t + [c], |t|);
      if PadComplete(all, |t|) {
        assert end == |t|;
        assert all[..end] == t;
      } else {
        ScanReads(Advance(st, c), t + [c], rest[1..], end);
      }
    }
  }

  lemma {:induction false} StripSignificant(s: string)
    ensures forall k :: 0 <= k < |Strip(s)| ==> Significant(Strip(s)[k])
    decreases |s|
  {
    if s != "" { StripSignificant(s[1..]); }
  }

  /** The decoder, exactly, for every text.  It reads the symbols up to the first complete padding; it
      refuses the text if and only if there is none and the number of symbols is not a multiple of
      four; and otherwise it returns the octets that those symbols spell. */
  lemma DecodeIsExact(s: string, end: nat)
    requires EndsAt(Strip(s), end)
    ensures var v := Sextets(Strip(s)[..end]);
            && (Decode(s).None? <==> end == |Strip(s)| && |v| % 4 != 0)
            && (Decode(s).Some? ==> Spells(v, Decode(s).value))
  {
    var t := Strip(s);
    DecodeIgnoresForeign(s);
    StripSignificant(s);
    ScanStripped(Scan(0, 0, 0, [], false), s);
    assert "" + t == t;
    ScanReads(Scan(0, 0, 0, [], false), "", t, end);
  }

  /** Every text has such an end. */
  lemma {:induction false} EndExists(t: string, from: nat) returns (end: nat)
    requires from <= |t| && forall p :: 0 <= p < from ==> !PadComplete(t, p)
    ensures EndsAt(t, end)
    decreases |t| - from
  {
    if from == |t| || PadComplete(t, from) { end := from; } else { end := EndExists(t, from + 1); }
  }

  /** Text without any padding decodes if and only if its symbols come in fours: an unpadded upload
      whose length is not a multiple of three octets is refused. */
  lemma UnpaddedDecodesIff(s: string)
    requires '=' !in s
    ensures Decode(s).Some? <==> |Strip(s)| % 4 == 0
  {
    UnpaddedStrip(s);
    DecodeIsExact(s, |Strip(s)|);
    AllSymbols(Strip(s));
    assert Strip(s)[..|Strip(s)|] == Strip(s);
  }

  lemma {:induction false} UnpaddedStrip(s: string)
    requires '=' !in s
    ensures forall k :: 0 <= k < |Strip(s)| ==> Value(Strip(s)[k]).Some? && Strip(s)[k] != '='
    decreases |s|
  {
    if s != "" {
      UnpaddedStrip(s[1..]);
      assert s[0] in s;
    }
  }

  lemma {:induction false} AllSymbols(t: string)
    requires forall k :: 0 <= k < |t| ==> Value(t[k]).Some?
    ensures |Sextets(t)| == |t|
    decreases |t|
  {
    if t != "" { AllSymbols(t[..|t| - 1]); }
  }

  /** `urlsafe_b64decode` is that decoder behind a translation of the two symbols and a check that the
      text is ASCII. */
  lemma UrlSafeDecodeIsExact(s: string, t: string)
    requires |t| == |s|
    requires forall k :: 0 <= k < |s| ==> t[k] == if s[k] == '-' then '+' else if s[k] == '_' then '/' else s[k]
    ensures UrlSafeDecode(s) == if exists k :: 0 <= k < |s| && s[k] as int >= 128 then None else Decode(t)
  {
    assert Translate(s) == t;
    if k :| 0 <= k < |s| && s[k] as int >= 128 { assert s[k] in s; }
  }

  /** Both legs tolerate what is between the symbols: a text that becomes the encoding of some bytes
      when foreign characters are dropped decodes to them. */
  lemma TolerantRoundTrip(s: string, bytes: seq<Byte>)
    ensures Strip(s) == Encode(bytes, Standard) ==> Decode(s) == Some(bytes)
    ensures Strip(Translate(s)) == Encode(bytes, Standard) && Ascii(s) ==> UrlSafeDecode(s) == Some(bytes)
  {
    RoundTrip(bytes, Standard);
    DecodeIgnoresForeign(s);
    DecodeIgnoresForeign(Translate(s));
  }

  /** Group `g` of the text: its symbols, with the padding and the zero bits of the last group. */
  predicate IsGroup(text: string, bytes: seq<Byte>, alphabet: Alphabet, g: nat)
    requires 3 * g < |bytes|
  {
    var b0: int := bytes[3 * g];
    var b1: int := if 3 * g + 1 < |bytes| then bytes[3 * g + 1] else 0;
    var b2: int := if 3 * g + 2 < |bytes| then bytes[3 * g + 2] else 0;
    && |text| == 4
    && text[0] == Symbol(b0 / 4, alphabet)
    && text[1] == Symbol(b0 % 4 * 16 + b1 / 16, alphabet)
    && text[2] == (if 3 * g + 1 < |bytes| then Symbol(b1 % 16 * 4 + b2 / 64, alphabet) else '=')
    && text[3] == (if 3 * g + 2 < |bytes| then Symbol(b2 % 64, alphabet) else '=')
  }

  lemma FirstGroup(bytes: seq<Byte>, alphabet: Alphabet)
    requires bytes != []
    ensures |Encode(bytes, alphabet)| >= 4 && IsGroup(Encode(bytes, alphabet)[..4], bytes, alphabet, 0)
  {
    hide Symbol;
  }

  lemma GroupFrame(text: string, bytes: seq<Byte>, alphabet: Alphabet, g: nat)
    requires 3 * g < |bytes| && IsGroup(text, bytes[3 * g..], alphabet, 0)
    ensures IsGroup(text, bytes, alphabet, g)
  {
    hide Symbol;
  }

  lemma {:induction false} EncodedLength(bytes: seq<Byte>, alphabet: Alphabet)
    ensures |Encode(bytes, alphabet)| == (|bytes| + 2) / 3 * 4
    decreases |bytes|
  {
    hide Symbol;
    if |bytes| >= 3 {
      EncodedLength(bytes[3..], alphabet);
      assert (|bytes[3..]| + 2) / 3 + 1 == (|bytes| + 2) / 3;
    }
  }

  lemma EncodeTail(bytes: seq<Byte>, alphabet: Alphabet)
    requires |bytes| > 3
    ensures |Encode(bytes, alphabet)| == 4 + |Encode(bytes[3..], alphabet)|
    ensures Encode(bytes, alphabet)[4..] == Encode(bytes[3..], alphabet)
  {
    hide Symbol;
  }

  lemma {:induction false} EncodeSuffix(bytes: seq<Byte>, alphabet: Alphabet, g: nat)
    requires 3 * g < |bytes|
    ensures 4 * g <= |Encode(bytes, alphabet)| && Encode(bytes, alphabet)[4 * g..] == Encode(bytes[3 * g..], alphabet)
    decreases g
  {
    if g == 0 {
      assert bytes[0..] == bytes;
    } else {
      EncodeTail(bytes, alphabet);
      EncodeSuffix(bytes[3..], alphabet, g - 1);
      hide Encode;
      var text := Encode(bytes, alphabet);
      assert text[4..][4 * (g - 1)..] == text[4 * g..];
      assert bytes[3..][3 * (g - 1)..] == bytes[3 * g..];
    }
  }

  /** The encoder, group by group: all its output is fixed, and there are no line breaks in it. */
  lemma EncodeIsExact(bytes: seq<Byte>, alphabet: Alphabet, g: nat)
    requires 3 * g < |bytes|
    ensures |Encode(bytes, alphabet)| == (|bytes| + 2) / 3 * 4 >= 4 * g + 4
    ensures IsGroup(Encode(bytes, alphabet)[4 * g..][..4], bytes, alphabet, g)
  {
    EncodedLength(bytes, alphabet);
    EncodeSuffix(bytes, alphabet, g);
    FirstGroup(bytes[3 * g..], alphabet);
    hide Encode, IsGroup;
    GroupFrame(Encode(bytes, alphabet)[4 * g..][..4], bytes, alphabet, g);
  }

  // ---------- the request's `base64` validation tag ----------

  predicate Letters(s: string) { forall c :: c in s ==> Value(c).Some? }

  /** The pattern behind the tag: any number of groups of four symbols, the last one possibly
      padded with one or two `=`. */
  predicate MatchesTag(s: string) {
    if |s| < 4 then false
    else if |s| == 4 then
      Letters(s) || (Letters(s[..3]) && s[3] == '=') || (Letters(s[..2]) && s[2] == '=' && s[3] == '=')
    else Letters(s[..4]) && MatchesTag(s[4..])
  }

  /** Said without recursion: the length is a positive multiple of four, and only the last two
      characters can be padding. */
  lemma {:induction false} TagIsPattern(s: string)
    ensures MatchesTag(s) <==>
              && |s| % 4 == 0 && |s| >= 4
              && Letters(s[..|s| - 2])
              && (s[|s| - 2] == '=' || Value(s[|s| - 2]).Some?)
              && (s[|s| - 1] == '=' || (s[|s| - 2] != '=' && Value(s[|s| - 1]).Some?))
    decreases |s|
  {
    if |s| == 4 {
      LettersConcat(s[..2], [s[2]]);
      LettersConcat(s[..3], [s[3]]);
      assert s[..2] + [s[2]] == s[..3] && s[..3] + [s[3]] == s;
    } else if |s| > 4 {
      var rest := s[4..];
      TagIsPattern(rest);
      if |s| >= 8 {
        LettersConcat(s[..4], rest[..|rest| - 2]);
        assert s[..4] + rest[..|rest| - 2] == s[..|s| - 2];
        assert rest[|rest| - 2] == s[|s| - 2] && rest[|rest| - 1] == s[|s| - 1];
      }
      assert |rest| % 4 == |s| % 4;
    }
  }

  lemma LettersConcat(a: string, b: string)
    ensures Letters(a + b) <==> Letters(a) && Letters(b)
    ensures |b| == 1 ==> (Letters(b) <==> Value(b[0]).Some?)
  {
    hide Value;
    assert forall c :: c in a + b <==> c in a || c in b;
    if |b| == 1 { assert b == [b[0]]; }
  }

  lemma ScanLetters(st: Scan, s: string, rest: string) returns (next: Scan)
    requires st.quad == 0 && !st.stopped && |s| == 4 && Letters(s)
    ensures next.quad == 0 && !next.stopped && ScanAll(st, s + rest) == ScanAll(next, rest)
  {
    assert s[0] in s && s[1] in s && s[2] in s && s[3] in s;
    var s1 := Advance(st, s[0]);
    var s2 := Advance(s1, s[1]);
    var s3 := Advance(s2, s[2]);
    assert s + rest == [s[0]] + ([s[1]] + ([s[2]] + ([s[3]] + rest)));
    ScanChar(st, s[0], [s[1]] + ([s[2]] + ([s[3]] + rest)));
    ScanChar(s1, s[1], [s[2]] + ([s[3]] + rest));
    ScanChar(s2, s[2], [s[3]] + rest);
    ScanChar(s3, s[3], rest);
    next := Advance(s3, s[3]);
  }

  lemma ScanPadded(st: Scan, s: string)
    requires st.quad == 0 && !st.stopped && MatchesTag(s) && |s| == 4
    ensures var end := ScanAll(st, s); end.stopped || end.quad == 0
  {
    assert s[..3] == [s[0], s[1], s[2]] && s[..2] == [s[0], s[1]];
    assert s[0] in s[..2] && s[1] in s[..2] && s[0] in s[..3] && s[1] in s[..3] && s[2] in s[..3];
    var s1 := Advance(st, s[0]);
    var s2 := Advance(s1, s[1]);
    var s3 := Advance(s2, s[2]);
    if Letters(s) {
      var next := ScanLetters(st, s, "");
      assert s + "" == s;
    } else {
      assert s == [s[0]] + ([s[1]] + ([s[2]] + ([s[3]] + "")));
      ScanChar(st, s[0], [s[1]] + ([s[2]] + ([s[3]] + "")));
      ScanChar(s1, s[1], [s[2]] + ([s[3]] + ""));
      ScanChar(s2, s[2], [s[3]] + "");
      ScanChar(s3, s[3], "");
    }
  }

  lemma {:induction false} ScanTagged(st: Scan, s: string)
    requires st.quad == 0 && !st.stopped && MatchesTag(s)
    ensures var end := ScanAll(st, s); end.stopped || end.quad == 0
    decreases |s|
  {
    if |s| == 4 {
      ScanPadded(st, s);
    } else {
      var next := ScanLetters(st, s[..4], s[4..]);
      assert s[..4] + s[4..] == s;
      ScanTagged(next, s[4..]);
    }
  }

  lemma {:induction false} TaggedText(s: string)
    requires MatchesTag(s)
    ensures forall c :: c in s ==> Value(c).Some? || c == '='
    decreases |s|
  {
    if |s| == 4 {
      assert s == s[..3] + [s[3]] && s == s[..2] + [s[2], s[3]];
    } else {
      TaggedText(s[4..]);
      assert s == s[..4] + s[4..];
    }
  }

  /** Every string the tag accepts is one the sealer can decode. */
  lemma TagImpliesDecodable(s: string)
    requires MatchesTag(s)
    ensures UrlSafeDecode(s).Some?
  {
    TaggedText(s);
    assert Translate(s) == s by {
      forall i | 0 <= i < |s| ensures s[i] != '-' && s[i] != '_' { assert s[i] in s; }
    }
    ScanTagged(Scan(0, 0, 0, [], false), s);
  }

  /** And what the sealer prints matches it. */
  lemma {:induction false} EncodedMatchesTag(bytes: seq<Byte>)
    requires bytes != []
    ensures MatchesTag(Encode(bytes, Standard))
    decreases |bytes|
  {
    forall v: Sextet ensures Value(Symbol(v, Standard)).Some? { SymbolValue(v); }
    var text := Encode(bytes, Standard);
    assert text[..2] == [text[0], text[1]] && text[..3] == [text[0], text[1], text[2]];
    assert text[..4] == [text[0], text[1], text[2], text[3]];
    if |bytes| > 3 {
      EncodedMatchesTag(bytes[3..]);
      assert text[4..] == Encode(bytes[3..], Standard);
    } else if |bytes| == 3 {
      assert Encode(bytes[3..], Standard) == "";
    }
  }
}
