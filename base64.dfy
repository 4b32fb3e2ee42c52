/** The base64 helpers beside the transaction decoder. The encoder turns
    each byte into the character with that code and hands the string to
    `btoa`; the decoder runs `atob` and takes the character codes back.
    `btoa` is the base64 encoding of section 4 of RFC 4648 (with `=`
    padding); `atob` is the forgiving-base64 decode of the HTML standard:
    it drops ASCII white space and at most two trailing `=` from a string
    whose length is a multiple of four, refuses a length of the form 4n+1
    or any character outside the alphabet, and ignores the unused low bits
    of the last symbol. */
module Base64 {
  import opened Wrappers
  import opened TxCodec

  /** The 64 symbols of the base64 alphabet. */
  predicate IsSymbol(c: char)
  {
    ('A' <= c <= 'Z') || ('a' <= c <= 'z') || ('0' <= c <= '9') || c == '+' || c == '/'
  }

  function Symbol(v: nat): (c: char)
    requires v < 64
    ensures IsSymbol(c)
  {
    if v < 26 then (('A' as int) + v) as char
    else if v < 52 then (('a' as int) + v - 26) as char
    else if v < 62 then (('0' as int) + v - 52) as char
    else if v == 62 then '+'
    else '/'
  }

  function SymbolValue(c: char): (v: nat)
    requires IsSymbol(c)
    ensures v < 64 && Symbol(v) == c
  {
    if 'A' <= c <= 'Z' then (c as int) - ('A' as int)
    else if 'a' <= c <= 'z' then (c as int) - ('a' as int) + 26
    else if '0' <= c <= '9' then (c as int) - ('0' as int) + 52
    else if c == '+' then 62
    else 63
  }

  lemma SymbolValueOfSymbol(v: nat)
    requires v < 64
    ensures SymbolValue(Symbol(v)) == v
  {
  }

  predicate AllBelow64(vs: seq<nat>) { forall i :: 0 <= i < |vs| ==> vs[i] < 64 }

  /** The 6-bit groups of a byte string, before padding: each three bytes
      give four groups, a last single byte two, a last pair three. */
  function Sextets(b: seq<Byte>): (vs: seq<nat>)
    ensures AllBelow64(vs)
  {
    if |b| == 0 then []
    else if |b| == 1 then
      [b[0] as nat / 4, (b[0] as nat % 4) * 16]
    else if |b| == 2 then
      [b[0] as nat / 4, (b[0] as nat % 4) * 16 + b[1] as nat / 16, (b[1] as nat % 16) * 4]
    else
      [b[0] as nat / 4, (b[0] as nat % 4) * 16 + b[1] as nat / 16,
       (b[1] as nat % 16) * 4 + b[2] as nat / 64, b[2] as nat % 64]
      + Sextets(b[3..])
  }

  function Symbols(vs: seq<nat>): (s: string)
    requires AllBelow64(vs)
    ensures |s| == |vs| && forall i :: 0 <= i < |s| ==> s[i] == Symbol(vs[i])
  {
    if vs == [] then "" else [Symbol(vs[0])] + Symbols(vs[1..])
  }

  function Padding(n: nat): string
  {
    if n % 3 == 1 then "==" else if n % 3 == 2 then "=" else ""
  }

  /** `btoa(String.fromCharCode(...bytes))`. */
  function Encode(b: seq<Byte>): (s: string)
    ensures |s| % 4 == 0
  {
    SextetsCount(b);
    Symbols(Sextets(b)) + Padding(|b|)
  }

  /** Each three bytes give four groups, a last single byte two and a last
      pair three. */
  lemma {:induction false} SextetsCount(b: seq<Byte>)
    ensures |Sextets(b)| % 4 == (if |b| % 3 == 0 then 0 else |b| % 3 + 1)
    decreases |b|
  {
    if |b| >= 3 {
      SextetsCount(b[3..]);
      SextetsChunk(b);
      assert |Sextets(b)| == 4 + |Sextets(b[3..])|;
    }
  }

  /** The bytes of a sequence of 6-bit groups. A lone last group holds no
      whole byte; `atob` refuses such a length before decoding. */
  function DecodeSextets(vs: seq<nat>): seq<Byte>
    requires AllBelow64(vs)
  {
    if |vs| <= 1 then []
    else if |vs| == 2 then [FirstByte(vs[0], vs[1])]
    else if |vs| == 3 then [FirstByte(vs[0], vs[1]), SecondByte(vs[1], vs[2])]
    else [FirstByte(vs[0], vs[1]), SecondByte(vs[1], vs[2]), ThirdByte(vs[2], vs[3])] + DecodeSextets(vs[4..])
  }

  /** The byte made of all six bits of one group and the high two of the
      next. */
  function FirstByte(v0: nat, v1: nat): Byte
    requires v0 < 64 && v1 < 64
  {
    (v0 * 4 + v1 / 16) as Byte
  }

  /** The byte made of the low four bits of one group and the high four of
      the next. */
  function SecondByte(v1: nat, v2: nat): Byte
    requires v1 < 64 && v2 < 64
  {
    ((v1 % 16) * 16 + v2 / 4) as Byte
  }

  /** The byte made of the low two bits of one group and all six of the
      next. */
  function ThirdByte(v2: nat, v3: nat): Byte
    requires v2 < 64 && v3 < 64
  {
    ((v2 % 4) * 64 + v3) as Byte
  }

  /** The white space forgiving-base64 removes: tab, line feed, form feed,
      carriage return and space. */
  predicate IsAsciiWhitespace(c: char)
  {
    c == '\t' || c == '\n' || c == '\U{000C}' || c == '\r' || c == ' '
  }

  function RemoveWhitespace(s: string): (r: string)
    ensures forall i :: 0 <= i < |r| ==> !IsAsciiWhitespace(r[i])
  {
    if s == [] then []
    else (if IsAsciiWhitespace(s[0]) then [] else [s[0]]) + RemoveWhitespace(s[1..])
  }

  /** Removes one or two trailing `=` when the length is a multiple of four. */
  function StripPadding(t: string): (u: string)
    ensures |u| <= |t| && u == t[..|u|]
  {
    if |t| % 4 == 0 && |t| >= 2 && t[|t| - 2] == '=' && t[|t| - 1] == '=' then t[..|t| - 2]
    else if |t| % 4 == 0 && |t| >= 1 && t[|t| - 1] == '=' then t[..|t| - 1]
    else t
  }

  function Values(u: string): (vs: seq<nat>)
    requires forall i :: 0 <= i < |u| ==> IsSymbol(u[i])
    ensures |vs| == |u| && AllBelow64(vs)
    ensures forall i :: 0 <= i < |u| ==> vs[i] == SymbolValue(u[i])
  {
    if u == [] then [] else [SymbolValue(u[0])] + Values(u[1..])
  }

  /** `atob` followed by taking the character codes. None stands for the
      exception `atob` throws. */
  function Decode(s: string): (r: Option<seq<Byte>>)
    ensures r.None? <==>
      var u := StripPadding(RemoveWhitespace(s));
      |u| % 4 == 1 || exists i :: 0 <= i < |u| && !IsSymbol(u[i])
  {
    var u := StripPadding(RemoveWhitespace(s));
    if |u| % 4 == 1 || exists i :: 0 <= i < |u| && !IsSymbol(u[i]) then None
    else Some(DecodeSextets(Values(u)))
  }

  // ---------------------------------------------------------------------
  // The round trip

  /** One group of three bytes survives the trip through four symbols. */
  lemma ChunkRoundTrip(b0: nat, b1: nat, b2: nat)
    requires b0 < 256 && b1 < 256 && b2 < 256
    ensures var v0, v1, v2, v3 := b0 / 4, (b0 % 4) * 16 + b1 / 16, (b1 % 16) * 4 + b2 / 64, b2 % 64;
      && v0 < 64 && v1 < 64 && v2 < 64 && v3 < 64
      && FirstByte(v0, v1) == b0 as Byte
      && SecondByte(v1, v2) == b1 as Byte
      && ThirdByte(v2, v3) == b2 as Byte
  {
  }

  lemma {:induction false} DecodeSextetsOfSextets(b: seq<Byte>)
    ensures DecodeSextets(Sextets(b)) == b
    decreases |b|
  {
    if |b| == 1 {
      OneByteRoundTrip(b);
    } else if |b| == 2 {
      TwoBytesRoundTrip(b);
    } else if |b| >= 3 {
      DecodeSextetsOfSextets(b[3..]);
      ChunkThenRest(b);
    }
  }

  lemma OneByteRoundTrip(b: seq<Byte>)
    requires |b| == 1
    ensures DecodeSextets(Sextets(b)) == b
  {
    var x := b[0] as nat;
    var v0, v1 := x / 4, (x % 4) * 16;
    assert Sextets(b) == [v0, v1];
    ChunkRoundTrip(x, 0, 0);
    assert FirstByte(v0, v1) == b[0];
  }

  lemma TwoBytesRoundTrip(b: seq<Byte>)
    requires |b| == 2
    ensures DecodeSextets(Sextets(b)) == b
  {
    var x, y := b[0] as nat, b[1] as nat;
    var v0, v1, v2 := x / 4, (x % 4) * 16 + y / 16, (y % 16) * 4;
    assert Sextets(b) == [v0, v1, v2];
    ChunkRoundTrip(x, y, 0);
    assert FirstByte(v0, v1) == b[0] && SecondByte(v1, v2) == b[1];
  }

  /** The first three bytes come back from the first four symbols, and the
      rest from the rest. */
  lemma ChunkThenRest(b: seq<Byte>)
    requires |b| >= 3
    requires DecodeSextets(Sextets(b[3..])) == b[3..]
    ensures DecodeSextets(Sextets(b)) == b
  {
    var vs := Sextets(b);
    SextetsChunk(b);
    DecodeChunk(vs);
    ChunkBytes(b);
    FirstThree(b);
  }

  lemma SextetsChunk(b: seq<Byte>)
    requires |b| >= 3
    ensures |Sextets(b)| >= 4 && Sextets(b)[4..] == Sextets(b[3..])
  {
    var vs := Sextets(b);
    var x, y, z := b[0] as nat, b[1] as nat, b[2] as nat;
    assert vs == [x / 4, (x % 4) * 16 + y / 16, (y % 16) * 4 + z / 64, z % 64] + Sextets(b[3..]);
  }

  /** The first four groups give back the first three bytes. */
  lemma ChunkBytes(b: seq<Byte>)
    requires |b| >= 3
    ensures |Sextets(b)| >= 4
    ensures var vs := Sextets(b);
      FirstByte(vs[0], vs[1]) == b[0] && SecondByte(vs[1], vs[2]) == b[1] && ThirdByte(vs[2], vs[3]) == b[2]
  {
    var x, y, z := b[0] as nat, b[1] as nat, b[2] as nat;
    var vs := Sextets(b);
    assert vs[0] == x / 4 && vs[1] == (x % 4) * 16 + y / 16;
    assert vs[2] == (y % 16) * 4 + z / 64 && vs[3] == z % 64;
    ChunkRoundTrip(x, y, z);
  }

  /** Four or more groups decode as their first three bytes, then the rest. */
  lemma DecodeChunk(vs: seq<nat>)
    requires AllBelow64(vs) && |vs| >= 4
    ensures DecodeSextets(vs) == [FirstByte(vs[0], vs[1]), SecondByte(vs[1], vs[2]), ThirdByte(vs[2], vs[3])] + DecodeSextets(vs[4..])
  {
  }

  lemma FirstThree<T>(s: seq<T>)
    requires |s| >= 3
    ensures s == [s[0], s[1], s[2]] + s[3..]
  {
  }

  lemma {:induction false} RemoveWhitespaceNone(s: string)
    requires forall i :: 0 <= i < |s| ==> !IsAsciiWhitespace(s[i])
    ensures RemoveWhitespace(s) == s
  {
    if s != [] {
      RemoveWhitespaceNone(s[1..]);
    }
  }

  /** What `atob` sees of an encoding, once padding is stripped: the
      symbols themselves. */
  lemma StripEncoding(b: seq<Byte>)
    ensures StripPadding(Encode(b)) == Symbols(Sextets(b))
  {
    var vs := Sextets(b);
    var sym := Symbols(vs);
    forall i | 0 <= i < |sym| ensures sym[i] != '=' {
      assert sym[i] == Symbol(vs[i]);
    }
    SextetsCount(b);
    StripSymbols(sym, |b|);
  }

  /** Padding after symbols of the matching length is stripped exactly. */
  lemma StripSymbols(sym: string, n: nat)
    requires forall i :: 0 <= i < |sym| ==> sym[i] != '='
    requires |sym| % 4 == (if n % 3 == 0 then 0 else n % 3 + 1)
    ensures StripPadding(sym + Padding(n)) == sym
  {
    var e := sym + Padding(n);
    if n % 3 == 1 {
      assert e[..|e| - 2] == sym;
    } else if n % 3 == 2 {
      assert e[..|e| - 1] == sym;
      assert e[|e| - 2] == sym[|sym| - 1];
    } else {
      assert e == sym;
    }
  }

  lemma {:induction false} ValuesOfSymbols(vs: seq<nat>)
    requires AllBelow64(vs)
    ensures Values(Symbols(vs)) == vs
  {
    var s := Symbols(vs);
    forall i | 0 <= i < |vs| ensures Values(s)[i] == vs[i] {
      SymbolValueOfSymbol(vs[i]);
    }
  }

  /** Decoding an encoding gives back every byte string. */
  lemma DecodeEncode(b: seq<Byte>)
    ensures Decode(Encode(b)) == Some(b)
  {
    var vs := Sextets(b);
    var sym := Symbols(vs);
    EncodingHasNoWhitespace(b);
    RemoveWhitespaceNone(Encode(b));
    StripEncoding(b);
    ValuesOfSymbols(vs);
    DecodeSextetsOfSextets(b);
    SextetsLength(b);
    DecodeWhen(Encode(b), sym);
  }

  /** No encoding has 4n+1 symbols. */
  lemma {:induction false} SextetsLength(b: seq<Byte>)
    ensures |Sextets(b)| % 4 != 1
    decreases |b|
  {
    if |b| >= 3 {
      SextetsLength(b[3..]);
      SextetsChunk(b);
      assert |Sextets(b)| == 4 + |Sextets(b[3..])|;
    }
  }

  /** An encoding holds only symbols and `=`. */
  lemma EncodingHasNoWhitespace(b: seq<Byte>)
    ensures forall i :: 0 <= i < |Encode(b)| ==> !IsAsciiWhitespace(Encode(b)[i])
  {
    var e := Encode(b);
    var sym := Symbols(Sextets(b));
    forall i | 0 <= i < |e| ensures !IsAsciiWhitespace(e[i]) {
      if i < |sym| { assert e[i] == sym[i]; }
    }
  }

  /** `atob` succeeds when what remains after white space and padding are
      dropped is a run of symbols of a length other than 4n+1. */
  lemma DecodeWhen(s: string, u: string)
    requires StripPadding(RemoveWhitespace(s)) == u
    requires |u| % 4 != 1 && forall i :: 0 <= i < |u| ==> IsSymbol(u[i])
    ensures Decode(s) == Some(DecodeSextets(Values(u)))
  {
  }

  /** Test vectors of section 10 of RFC 4648: "f", "fo", "foo", "foobar". */
  lemma TestVectorF()
    ensures Encode([102]) == "Zg=="
  {
    assert Sextets([102]) == [25, 32];
    assert Symbols([25, 32]) == [Symbol(25)] + Symbols([32]);
  }

  lemma TestVectorFo()
    ensures Encode([102, 111]) == "Zm8="
  {
    assert Sextets([102, 111]) == [25, 38, 60];
    assert Symbols([25, 38, 60]) == [Symbol(25)] + ([Symbol(38)] + Symbols([60]));
  }

  lemma TestVectorFoo()
    ensures Encode([102, 111, 111]) == "Zm9v"
  {
    var b: seq<Byte> := [102, 111, 111];
    assert b[3..] == [];
    assert Sextets(b) == [25, 38, 61, 47];
    assert Symbols([25, 38, 61, 47]) == [Symbol(25)] + ([Symbol(38)] + ([Symbol(61)] + Symbols([47])));
  }

  lemma TestVectorFoobar(b: seq<Byte>)
    requires b == [102, 111, 111, 98, 97, 114]
    ensures Encode(b) == "Zm9vYmFy"
  {
    var foo, bar := b[..3], b[3..];
    assert Sextets(b) == Sextets(foo) + Sextets(bar) by {
      assert foo[3..] == [];
    }
    SymbolsConcat(Sextets(foo), Sextets(bar));
    FooSymbols(foo);
    BarSymbols(bar);
  }

  lemma FooSymbols(foo: seq<Byte>)
    requires foo == [102, 111, 111]
    ensures Symbols(Sextets(foo)) == "Zm9v"
  {
    assert foo[3..] == [];
    assert Sextets(foo) == [25, 38, 61, 47];
    assert Symbols([25, 38, 61, 47]) == [Symbol(25)] + ([Symbol(38)] + ([Symbol(61)] + Symbols([47])));
  }

  lemma BarSymbols(bar: seq<Byte>)
    requires bar == [98, 97, 114]
    ensures Symbols(Sextets(bar)) == "YmFy"
  {
    assert bar[3..] == [];
    assert Sextets(bar) == [24, 38, 5, 50];
    assert Symbols([24, 38, 5, 50]) == [Symbol(24)] + ([Symbol(38)] + ([Symbol(5)] + Symbols([50])));
  }

  /** Symbols are mapped one at a time. */
  lemma SymbolsConcat(a: seq<nat>, b: seq<nat>)
    requires AllBelow64(a) && AllBelow64(b)
    ensures AllBelow64(a + b) && Symbols(a + b) == Symbols(a) + Symbols(b)
  {
    assert AllBelow64(a + b) by {
      forall i | 0 <= i < |a + b| ensures (a + b)[i] < 64 {
        if i >= |a| {
          assert (a + b)[i] == b[i - |a|];
        }
      }
    }
    forall i | 0 <= i < |a + b| ensures Symbols(a + b)[i] == (Symbols(a) + Symbols(b))[i] {
      if i >= |a| {
        assert (a + b)[i] == b[i - |a|];
      }
    }
  }

  /** `atob` refuses a lone `=` after three symbols. */
  lemma DecodeRefusesShortPadding()
    ensures Decode("Zg=").None?
  {
    var u := StripPadding(RemoveWhitespace("Zg="));
    assert RemoveWhitespace("Zg=") == "Zg=" by {
      RemoveWhitespaceNone("Zg=");
    }
    assert u == "Zg=" && !IsSymbol(u[2]);
  }

  /** `atob` refuses a length of the form 4n+1. */
  lemma DecodeRefusesOneSymbol()
    ensures Decode("Z").None?
  {
    RemoveWhitespaceNone("Z");
  }

  /** `atob` drops white space and the padding. */
  lemma DecodeForgives()
    ensures Decode(" Zm8= ") == Some([102, 111])
  {
    SpacedInput();
    assert StripPadding("Zm8=") == "Zm8";
    SymbolsZm8();
    DecodeWhen(" Zm8= ", "Zm8");
    assert DecodeSextets([25, 38, 60]) == [102, 111];
  }

  lemma SpacedInput()
    ensures RemoveWhitespace(" Zm8= ") == "Zm8="
  {
    var s := " Zm8= ";
    assert s[1..] == "Zm8=" + " ";
    RemoveWhitespaceTail("Zm8=", " ");
    RemoveWhitespaceNone("Zm8=");
  }

  lemma SymbolsZm8()
    ensures forall i :: 0 <= i < |"Zm8"| ==> IsSymbol("Zm8"[i])
    ensures Values("Zm8") == [25, 38, 60]
  {
    var u := "Zm8";
    assert u[1..] == "m8" && u[1..][1..] == "8";
  }

  lemma {:induction false} RemoveWhitespaceTail(s: string, w: string)
    requires forall i :: 0 <= i < |w| ==> IsAsciiWhitespace(w[i])
    ensures RemoveWhitespace(s + w) == RemoveWhitespace(s)
    decreases |s|
  {
    if s == [] {
      assert s + w == w;
      AllWhitespaceRemoved(w);
    } else {
      assert (s + w)[1..] == s[1..] + w;
      RemoveWhitespaceTail(s[1..], w);
    }
  }

  lemma {:induction false} AllWhitespaceRemoved(w: string)
    requires forall i :: 0 <= i < |w| ==> IsAsciiWhitespace(w[i])
    ensures RemoveWhitespace(w) == []
  {
    if w != [] {
      AllWhitespaceRemoved(w[1..]);
    }
  }
}
