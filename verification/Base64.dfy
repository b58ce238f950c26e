/**
 * Printing keys for the command line (core/transport/src/linux.rs): base64 with
 * padding, as in section 4 of RFC 4648, here for any number of bytes.
 */
module Base64 {
  import opened Results
  import opened Messages

  type Sextet = n: int | 0 <= n < 64

  /** The alphabet: upper case, lower case, digits, plus and slash. */
  function Glyph(n: Sextet): (c: char) {
    if n < 26 then (n + 65) as char
    else if n < 52 then (n - 26 + 97) as char
    else if n < 62 then (n - 52 + 48) as char
    else if n == 62 then '+'
    else '/'
  }

  /** The table the source indexes, in its five stretches. */
  lemma AlphabetTable(n: Sextet)
    ensures n < 26 ==> Glyph(n) == "ABCDEFGHIJKLMNOPQRSTUVWXYZ"[n]
    ensures 26 <= n < 52 ==> Glyph(n) == "abcdefghijklmnopqrstuvwxyz"[n - 26]
    ensures 52 <= n < 62 ==> Glyph(n) == "0123456789"[n - 52]
    ensures n == 62 ==> Glyph(n) == '+'
    ensures n == 63 ==> Glyph(n) == '/'
  {
  }

  /** The place of a character in the alphabet. */
  function Place(c: char): Option<Sextet> {
    if 'A' <= c <= 'Z' then Some(c as int - 65)
    else if 'a' <= c <= 'z' then Some(c as int - 97 + 26)
    else if '0' <= c <= '9' then Some(c as int - 48 + 52)
    else if c == '+' then Some(62)
    else if c == '/' then Some(63)
    else None
  }

  lemma GlyphPlace(n: Sextet)
    ensures Place(Glyph(n)) == Some(n) && Glyph(n) != '='
  {
  }

  /**
   * One group of up to three bytes. `first >> 2`, `(first & 3) << 4 | second >> 4`,
   * `(second & 15) << 2 | third >> 6` and `third & 63`, written as arithmetic;
   * absent bytes count as zero and absent characters are `=`.
   */
  function Group(chunk: Bytes): (s: string)
    requires 0 < |chunk| <= 3
    ensures |s| == 4
  {
    var first := chunk[0];
    var second := if |chunk| > 1 then chunk[1] else 0;
    var third := if |chunk| > 2 then chunk[2] else 0;
    [Glyph(first / 4),
     Glyph(first % 4 * 16 + second / 16),
     if |chunk| > 1 then Glyph(second % 16 * 4 + third / 64) else '=',
     if |chunk| > 2 then Glyph(third % 64) else '=']
  }

  /** Adding bytes that do not overflow. */
  lemma SumFits(a: bv8, b: bv8)
    requires a < 64 && b < 16
    ensures (a + b) as int == a as int + b as int
  {
  }

  lemma HighBits(first: bv8, second: bv8)
    ensures ((first & 3) << 4) as int == first as int % 4 * 16 && ((second & 15) << 2) as int == second as int % 16 * 4
  {
  }

  lemma LowBits(second: bv8, third: bv8)
    ensures (second >> 4) as int == second as int / 16 && (third >> 6) as int == third as int / 64
  {
  }

  /** The bits put together do not overlap. */
  lemma OrIsSum(first: bv8, second: bv8, third: bv8)
    ensures ((first & 3) << 4) | (second >> 4) == ((first & 3) << 4) + (second >> 4)
    ensures ((second & 15) << 2) | (third >> 6) == ((second & 15) << 2) + (third >> 6)
    ensures ((first & 3) << 4) < 64 && ((second & 15) << 2) < 64 && (second >> 4) < 16 && (third >> 6) < 16
  {
  }

  /** The arithmetic above is what the shifts and masks on bytes compute. */
  lemma ShiftsAndMasks(first: bv8, second: bv8, third: bv8)
    ensures (first >> 2) as int == first as int / 4
    ensures (((first & 3) << 4) | (second >> 4)) as int == first as int % 4 * 16 + second as int / 16
    ensures (((second & 15) << 2) | (third >> 6)) as int == second as int % 16 * 4 + third as int / 64
    ensures (third & 63) as int == third as int % 64
  {
    OuterSextets(first, third);
    OrIsSum(first, second, third);
    HighBits(first, second);
    LowBits(second, third);
    SumFits((first & 3) << 4, second >> 4);
    SumFits((second & 15) << 2, third >> 6);
  }

  lemma OuterSextets(first: bv8, third: bv8)
    ensures (first >> 2) as int == first as int / 4 && (third & 63) as int == third as int % 64
  {
  }

  function Encode(key: Bytes): (s: string)
    decreases |key|
  {
    if key == [] then ""
    else if |key| <= 3 then Group(key)
    else Group(key[..3]) + Encode(key[3..])
  }

  /** The source's loop over chunks. */
  method EncodeKey(key: Bytes) returns (output: string)
    ensures output == Encode(key)
  {
    output := "";
    var i := 0;
    while i < |key|
      invariant 0 <= i <= |key|
      invariant output + Encode(key[i..]) == Encode(key)
    {
      var end := if i + 3 <= |key| then i + 3 else |key|;
      EncodeStep(key, i, end, output);
      output := output + Group(key[i..end]);
      i := end;
    }
    assert key[|key|..] == [];
  }

  lemma EncodeStep(key: Bytes, i: nat, end: nat, output: string)
    requires i < end <= |key| && (end == i + 3 || (end == |key| && end < i + 3))
    ensures output + Encode(key[i..]) == (output + Group(key[i..end])) + Encode(key[end..])
  {
  }

  // --- The decoder ----------------------------------------------------------

  /** One group of four characters; padding is allowed only at the end of the last. */
  function Ungroup(s: string): (r: Option<Bytes>)
    requires |s| == 4
  {
    var a :- Place(s[0]);
    var b :- Place(s[1]);
    if s[2] == '=' then
      if s[3] != '=' || b % 16 != 0 then None else Some([a * 4 + b / 16])
    else
      var c :- Place(s[2]);
      if s[3] == '=' then
        if c % 4 != 0 then None else Some([a * 4 + b / 16, b % 16 * 16 + c / 4])
      else
        var d :- Place(s[3]);
        Some([a * 4 + b / 16, b % 16 * 16 + c / 4, c % 4 * 64 + d])
  }

  function Decode(s: string): (r: Option<Bytes>)
    decreases |s|
  {
    if s == "" then Some([])
    else if |s| < 4 then None
    else
      var head :- Ungroup(s[..4]);
      var tail :- Decode(s[4..]);
      if |head| < 3 && tail != [] then None else Some(head + tail)
  }

  lemma UngroupGroup(chunk: Bytes)
    requires 0 < |chunk| <= 3
    ensures Ungroup(Group(chunk)) == Some(chunk)
  {
    if |chunk| == 1 {
      UngroupOne(chunk[0]);
      assert chunk == [chunk[0]];
    } else if |chunk| == 2 {
      UngroupTwo(chunk[0], chunk[1]);
      assert chunk == [chunk[0], chunk[1]];
    } else {
      UngroupThree(chunk[0], chunk[1], chunk[2]);
      assert chunk == [chunk[0], chunk[1], chunk[2]];
    }
  }

  lemma UngroupOne(first: byte)
    ensures Ungroup(Group([first])) == Some([first])
  {
    Sextets(first, 0, 0);
    OneFromGlyphs(first / 4, first % 4 * 16);
  }

  lemma UngroupTwo(first: byte, second: byte)
    ensures Ungroup(Group([first, second])) == Some([first, second])
  {
    Sextets(first, second, 0);
    TwoFromGlyphs(first / 4, first % 4 * 16 + second / 16, second % 16 * 4);
  }

  lemma UngroupThree(first: byte, second: byte, third: byte)
    ensures Ungroup(Group([first, second, third])) == Some([first, second, third])
  {
    Sextets(first, second, third);
    GroupedBack([first, second, third],
                first / 4, first % 4 * 16 + second / 16, second % 16 * 4 + third / 64, third % 64);
  }

  lemma GroupedBack(chunk: Bytes, a: Sextet, b: Sextet, c: Sextet, d: Sextet)
    requires |chunk| == 3 && Group(chunk) == [Glyph(a), Glyph(b), Glyph(c), Glyph(d)]
    requires a * 4 + b / 16 == chunk[0] && b % 16 * 16 + c / 4 == chunk[1] && c % 4 * 64 + d == chunk[2]
    ensures Ungroup(Group(chunk)) == Some(chunk)
  {
    ThreeFromGlyphs(a, b, c, d);
    assert chunk == [chunk[0], chunk[1], chunk[2]];
  }

  lemma OneFromGlyphs(a: Sextet, b: Sextet)
    requires b % 16 == 0
    ensures Ungroup([Glyph(a), Glyph(b), '=', '=']) == Some([a * 4 + b / 16])
  {
    GlyphPlace(a);
    GlyphPlace(b);
  }

  lemma TwoFromGlyphs(a: Sextet, b: Sextet, c: Sextet)
    requires c % 4 == 0
    ensures Ungroup([Glyph(a), Glyph(b), Glyph(c), '=']) == Some([a * 4 + b / 16, b % 16 * 16 + c / 4])
  {
    GlyphPlace(a);
    GlyphPlace(b);
    GlyphPlace(c);
  }

  lemma ThreeFromGlyphs(a: Sextet, b: Sextet, c: Sextet, d: Sextet)
    ensures Ungroup([Glyph(a), Glyph(b), Glyph(c), Glyph(d)]) ==
            Some([a * 4 + b / 16, b % 16 * 16 + c / 4, c % 4 * 64 + d])
  {
    GlyphPlace(a);
    GlyphPlace(b);
    GlyphPlace(c);
    GlyphPlace(d);
  }

  /** Three bytes cut into four sextets can be put together again. */
  lemma Sextets(first: byte, second: byte, third: byte)
    ensures
      var a, b, c, d := first / 4, first % 4 * 16 + second / 16, second % 16 * 4 + third / 64, third % 64;
      && a * 4 + b / 16 == first && b % 16 * 16 + c / 4 == second && c % 4 * 64 + d == third
      && (second == 0 ==> b % 16 == 0) && (third == 0 ==> c % 4 == 0)
  {
  }

  /** Every byte string is read back from its encoding. */
  lemma {:induction false} RoundTrip(key: Bytes)
    ensures Decode(Encode(key)) == Some(key)
    decreases |key|
  {
    if 0 < |key| <= 3 {
      UngroupGroup(key);
      var s := Group(key);
      assert s[..4] == s && s[4..] == "";
      assert key + [] == key;
    } else if |key| > 3 {
      UngroupGroup(key[..3]);
      RoundTrip(key[3..]);
      var s := Encode(key);
      assert s[..4] == Group(key[..3]) && s[4..] == Encode(key[3..]);
      assert key[..3] + key[3..] == key;
    }
  }

  /** Distinct keys never print alike. */
  lemma Injective(a: Bytes, b: Bytes)
    requires Encode(a) == Encode(b)
    ensures a == b
  {
    RoundTrip(a);
    RoundTrip(b);
  }

  /** How many of the last characters are padding. */
  function Padding(n: nat): (p: nat) {
    if n % 3 == 0 then 0 else 3 - n % 3
  }

  /** Four characters per three bytes or part of them. */
  lemma {:induction false} Size(key: Bytes)
    ensures |Encode(key)| == (|key| + 2) / 3 * 4
    decreases |key|
  {
    if |key| > 3 {
      Size(key[3..]);
      assert |Encode(key)| == 4 + |Encode(key[3..])|;
      MoreGroups(|key|);
    } else {
      FewGroups(|key|);
    }
  }

  lemma MoreGroups(n: nat)
    requires n > 3
    ensures (n + 2) / 3 * 4 == (n - 3 + 2) / 3 * 4 + 4
  {
  }

  lemma FewGroups(n: nat)
    requires n <= 3
    ensures (n + 2) / 3 * 4 == if n == 0 then 0 else 4
  {
  }

  /** Padding fills the end and appears nowhere else. */
  lemma {:induction false} PaddedAtEnd(key: Bytes, i: nat)
    requires i < |Encode(key)|
    ensures Encode(key)[i] == '=' <==> i >= |Encode(key)| - Padding(|key|)
    decreases |key|
  {
    if |key| <= 3 {
      GroupPadding(key);
    } else if i >= 4 {
      assert Encode(key)[i] == Encode(key[3..])[i - 4];
      PaddedAtEnd(key[3..], i - 4);
      assert Padding(|key|) == Padding(|key| - 3);
    } else {
      GroupPadding(key[..3]);
      Size(key[3..]);
      assert Encode(key)[i] == Group(key[..3])[i];
      assert |Encode(key[3..])| >= 4;
    }
  }

  lemma GroupPadding(chunk: Bytes)
    requires 0 < |chunk| <= 3
    ensures forall i :: 0 <= i < 4 ==> (Group(chunk)[i] == '=' <==> i > |chunk|)
  {
  }

  /** A 32-byte key prints as 44 characters, the last of them padding. */
  lemma KeyShape(key: Bytes)
    requires |key| == 32
    ensures |Encode(key)| == 44 && Encode(key)[43] == '=' && Encode(key)[42] != '='
  {
    Size(key);
    PaddedAtEnd(key, 42);
    PaddedAtEnd(key, 43);
  }
}
