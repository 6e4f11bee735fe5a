/**
 * Base64 transport between the materializer and the Worker: `base64_encode`
 * (materializer/src/service.rs) against the decoder of section 4 of RFC 4648.
 */
module Base64 {
  import opened Common

  // ----- the alphabet ----------------------------------------------------------------------

  /** Table 1 of RFC 4648. */
  function Symbol(value: int): char
    requires 0 <= value < 64
  {
    if value < 26 then ('A' as int + value) as char
    else if value < 52 then ('a' as int + value - 26) as char
    else if value < 62 then ('0' as int + value - 52) as char
    else if value == 62 then '+' else '/'
  }

  /** The same table, read backwards. */
  function SymbolValue(c: char): (r: Option<int>)
    ensures r.Some? ==> 0 <= r.value < 64
  {
    if 'A' <= c <= 'Z' then Some(c as int - 'A' as int)
    else if 'a' <= c <= 'z' then Some(c as int - 'a' as int + 26)
    else if '0' <= c <= '9' then Some(c as int - '0' as int + 52)
    else if c == '+' then Some(62)
    else if c == '/' then Some(63)
    else None
  }

  const UPPER: string := "ABCDEFGHIJKLMNOPQRSTUVWXYZ"
  const LOWER: string := "abcdefghijklmnopqrstuvwxyz"
  const REST: string := "0123456789+/"

  lemma TablePieces(i: int)
    ensures 0 <= i < 26 ==> UPPER[i] == Symbol(i)
    ensures 0 <= i < 26 ==> LOWER[i] == Symbol(i + 26)
    ensures 0 <= i < 12 ==> REST[i] == Symbol(i + 52)
  {
  }

  /** The encoder's alphabet constant lists the symbols in order. */
  lemma AlphabetIsTable(i: int)
    requires 0 <= i < 64
    ensures |UPPER + LOWER + REST| == 64 && (UPPER + LOWER + REST)[i] == Symbol(i)
  {
    TablePieces(i);
    TablePieces(i - 26);
    TablePieces(i - 52);
  }

  /** The symbols at the ends of the table's runs, and its two signs. */
  lemma StandardSymbols()
    ensures Symbol(0) == 'A' && Symbol(25) == 'Z' && Symbol(26) == 'a' && Symbol(51) == 'z'
    ensures Symbol(52) == '0' && Symbol(61) == '9' && Symbol(62) == '+' && Symbol(63) == '/'
  {
  }

  // ----- six-bit groups --------------------------------------------------------------------

  predicate IsSextet(s: bv8) {
    s < 64
  }

  function Letter(s: bv8): char
    requires IsSextet(s)
  {
    Symbol(s as int)
  }

  function Sextet(c: char): (r: Option<bv8>)
  {
    match SymbolValue(c)
    case None => None
    case Some(v) => Some(v as bv8)
  }

  lemma LetterBack(s: bv8)
    requires IsSextet(s)
    ensures Sextet(Letter(s)) == Some(s) && Letter(s) != '='
  {
    assert SymbolValue(Symbol(s as int)) == Some(s as int);
    assert (s as int) as bv8 == s;
  }

  function FirstByte(a: bv8, b: bv8): bv8 {
    (a << 2) | (b >> 4)
  }

  function SecondByte(b: bv8, c: bv8): bv8 {
    (b << 4) | (c >> 2)
  }

  function ThirdByte(c: bv8, d: bv8): bv8 {
    (c << 6) | d
  }

  /** Three bytes, read as 24 bits, cut into four groups of six. */
  datatype Sextets = Sextets(a: bv8, b: bv8, c: bv8, d: bv8)

  function Cut(first: bv8, second: bv8, third: bv8): Sextets {
    Sextets(
      first >> 2,
      ((first & 0x03) << 4) | (second >> 4),
      ((second & 0x0F) << 2) | (third >> 6),
      third & 0x3F)
  }

  lemma CutIsSextets(first: bv8, second: bv8, third: bv8)
    ensures var q := Cut(first, second, third);
            IsSextet(q.a) && IsSextet(q.b) && IsSextet(q.c) && IsSextet(q.d)
  {
  }

  /** No bit is lost or misplaced: the bytes are joined back from the groups. */
  lemma JoinCut(first: bv8, second: bv8, third: bv8)
    ensures var q := Cut(first, second, third);
            && FirstByte(q.a, q.b) == first
            && SecondByte(q.b, q.c) == second
            && ThirdByte(q.c, q.d) == third
  {
  }

  // ----- the encoder -----------------------------------------------------------------------

  function ByteAt(bytes: Bytes, i: nat): bv8 {
    if i < |bytes| then bytes[i] else 0
  }

  /** One output group of four characters for one to three bytes. */
  function Group(chunk: Bytes): (g: string)
    requires 1 <= |chunk| <= 3
    ensures |g| == 4
  {
    var q := Cut(chunk[0], ByteAt(chunk, 1), ByteAt(chunk, 2));
    CutIsSextets(chunk[0], ByteAt(chunk, 1), ByteAt(chunk, 2));
    [ Letter(q.a),
      Letter(q.b),
      if |chunk| > 1 then Letter(q.c) else '=',
      if |chunk| > 2 then Letter(q.d) else '=' ]
  }

  function Chunk(bytes: Bytes): Bytes {
    if |bytes| < 3 then bytes else bytes[..3]
  }

  function Encode(bytes: Bytes): string {
    if bytes == [] then "" else Group(Chunk(bytes)) + Encode(bytes[|Chunk(bytes)|..])
  }

  method Lookup(alphabet: string, index: bv8) returns (c: char)
    requires alphabet == UPPER + LOWER + REST && IsSextet(index)
    ensures c == Letter(index)
  {
    AlphabetIsTable(index as int);
    c := alphabet[index as int];
  }

  /** The encoder's shifts and masks. */
  method CutBits(first: bv8, second: bv8, third: bv8) returns (q: Sextets)
    ensures q == Cut(first, second, third)
    ensures FirstByte(q.a, q.b) == first && SecondByte(q.b, q.c) == second && ThirdByte(q.c, q.d) == third
  {
    JoinCut(first, second, third);
    q := Sextets(first >> 2, ((first & 0x03) << 4) | (second >> 4), ((second & 0x0F) << 2) | (third >> 6), third & 0x3F);
  }

  lemma GroupLetters(chunk: Bytes, q: Sextets)
    requires 1 <= |chunk| <= 3 && q == Cut(chunk[0], ByteAt(chunk, 1), ByteAt(chunk, 2))
    ensures IsSextet(q.a) && IsSextet(q.b) && IsSextet(q.c) && IsSextet(q.d)
    ensures Group(chunk)
         == [Letter(q.a), Letter(q.b), if |chunk| > 1 then Letter(q.c) else '=', if |chunk| > 2 then Letter(q.d) else '=']
  {
    CutIsSextets(chunk[0], ByteAt(chunk, 1), ByteAt(chunk, 2));
  }

  method EncodeChunk(alphabet: string, chunk: Bytes) returns (g: string)
    requires alphabet == UPPER + LOWER + REST && 1 <= |chunk| <= 3
    ensures g == Group(chunk)
  {
    var first := chunk[0];
    var second: bv8 := if |chunk| > 1 then chunk[1] else 0;
    var third: bv8 := if |chunk| > 2 then chunk[2] else 0;
    var q := CutBits(first, second, third);
    GroupLetters(chunk, q);
    var a := Lookup(alphabet, q.a);
    var b := Lookup(alphabet, q.b);
    var c := '=';
    if |chunk| > 1 {
      c := Lookup(alphabet, q.c);
    }
    var d := '=';
    if |chunk| > 2 {
      d := Lookup(alphabet, q.d);
    }
    g := [a, b, c, d];
  }

  lemma EncodeFrom(bytes: Bytes, i: nat)
    requires i < |bytes|
    ensures var chunk := Chunk(bytes[i..]);
            Encode(bytes[i..]) == Group(chunk) + Encode(bytes[i + |chunk|..])
  {
    var chunk := Chunk(bytes[i..]);
    assert bytes[i..][|chunk|..] == bytes[i + |chunk|..];
  }

  /** One pass of the encoder's loop: the group for `bytes[i..]`'s first chunk, and where it ends. */
  method EncodeNext(bytes: Bytes, i: nat) returns (g: string, next: nat)
    requires i < |bytes|
    ensures i < next <= |bytes|
    ensures Encode(bytes[i..]) == g + Encode(bytes[next..])
  {
    var chunk := if |bytes| - i < 3 then bytes[i..] else bytes[i..i + 3];
    assert chunk == Chunk(bytes[i..]);
    EncodeFrom(bytes, i);
    g := EncodeChunk(UPPER + LOWER + REST, chunk);
    next := i + |chunk|;
  }

  method EncodeBytes(bytes: Bytes) returns (encoded: string)
    ensures encoded == Encode(bytes)
  {
    encoded := "";
    var i := 0;
    assert bytes[0..] == bytes;
    while i < |bytes|
      invariant i <= |bytes|
      invariant Encode(bytes) == encoded + Encode(bytes[i..])
    {
      var g, next := EncodeNext(bytes, i);
      encoded, i := encoded + g, next;
    }
  }

  // ----- the decoder -----------------------------------------------------------------------

  /** Three bytes, or fewer when the group ends in padding. */
  function Ungroup(g: string): Option<Bytes>
    requires |g| == 4
  {
    match (Sextet(g[0]), Sextet(g[1]))
    case (Some(a), Some(b)) =>
      if g[2] == '=' && g[3] == '=' then Some([FirstByte(a, b)])
      else
        (match Sextet(g[2])
         case None => None
         case Some(c) =>
           if g[3] == '=' then Some([FirstByte(a, b), SecondByte(b, c)])
           else
             match Sextet(g[3])
             case None => None
             case Some(d) => Some([FirstByte(a, b), SecondByte(b, c), ThirdByte(c, d)]))
    case _ => None
  }

  /** Whole groups of four; only the last may be padded. */
  function Decode(s: string): Option<Bytes> {
    if s == "" then Some([])
    else if |s| < 4 then None
    else
      match (Ungroup(s[..4]), Decode(s[4..]))
      case (Some(bytes), Some(rest)) =>
        if |bytes| < 3 && |s| > 4 then None else Some(bytes + rest)
      case _ => None
  }

  lemma UngroupLetters(a: bv8, b: bv8, c: bv8, d: bv8)
    requires IsSextet(a) && IsSextet(b) && IsSextet(c) && IsSextet(d)
    ensures Ungroup([Letter(a), Letter(b), '=', '=']) == Some([FirstByte(a, b)])
    ensures Ungroup([Letter(a), Letter(b), Letter(c), '=']) == Some([FirstByte(a, b), SecondByte(b, c)])
    ensures Ungroup([Letter(a), Letter(b), Letter(c), Letter(d)])
         == Some([FirstByte(a, b), SecondByte(b, c), ThirdByte(c, d)])
  {
    LetterBack(a);
    LetterBack(b);
    LetterBack(c);
    LetterBack(d);
  }

  lemma GroupBack(chunk: Bytes)
    requires 1 <= |chunk| <= 3
    ensures Ungroup(Group(chunk)) == Some(chunk)
  {
    var x, y, z := chunk[0], ByteAt(chunk, 1), ByteAt(chunk, 2);
    var q := Cut(x, y, z);
    CutIsSextets(x, y, z);
    JoinCut(x, y, z);
    UngroupLetters(q.a, q.b, q.c, q.d);
    if |chunk| == 1 {
      assert chunk == [x];
    } else if |chunk| == 2 {
      assert chunk == [x, y];
    } else {
      assert chunk == [x, y, z];
    }
  }

  lemma GroupPadding(chunk: Bytes, i: nat)
    requires 1 <= |chunk| <= 3 && i < 4
    ensures Group(chunk)[i] == '=' <==> i > |chunk|
  {
    var x, y, z := chunk[0], ByteAt(chunk, 1), ByteAt(chunk, 2);
    var q := Cut(x, y, z);
    CutIsSextets(x, y, z);
    LetterBack(q.a);
    LetterBack(q.b);
    LetterBack(q.c);
    LetterBack(q.d);
  }

  lemma DecodeCons(g: string, rest: string)
    requires |g| == 4 && Ungroup(g).Some? && Decode(rest).Some?
    requires |Ungroup(g).value| == 3 || rest == ""
    ensures Decode(g + rest) == Some(Ungroup(g).value + Decode(rest).value)
  {
    assert (g + rest)[..4] == g && (g + rest)[4..] == rest;
  }

  /** Transport is lossless: decoding inverts encoding on every byte sequence. */
  lemma {:induction false} DecodeEncode(bytes: Bytes)
    ensures Decode(Encode(bytes)) == Some(bytes)
  {
    if bytes != [] {
      var chunk := Chunk(bytes);
      var rest := bytes[|chunk|..];
      GroupBack(chunk);
      DecodeEncode(rest);
      DecodeCons(Group(chunk), Encode(rest));
      assert bytes == chunk + rest;
    }
  }

  /** How many characters of padding end the encoding of `n` bytes. */
  function Padding(n: nat): nat {
    if n % 3 == 0 then 0 else 3 - n % 3
  }

  lemma ThreeMore(n: nat)
    ensures Padding(n + 3) == Padding(n)
    ensures (n + 3 + 2) / 3 * 4 == (n + 2) / 3 * 4 + 4
  {
  }

  /** Four characters for every started group of three bytes. */
  lemma {:induction false} EncodedLength(bytes: Bytes)
    ensures |Encode(bytes)| == (|bytes| + 2) / 3 * 4
  {
    if |bytes| >= 3 {
      EncodedLength(bytes[3..]);
      ThreeMore(|bytes| - 3);
    }
  }

  /** Padding fills only the very end, one character for each byte the last group lacks. */
  lemma {:induction false} PaddingIsLast(bytes: Bytes, i: nat)
    requires i < |Encode(bytes)|
    ensures Encode(bytes)[i] == '=' <==> i >= |Encode(bytes)| - Padding(|bytes|)
  {
    var chunk := Chunk(bytes);
    var rest := bytes[|chunk|..];
    EncodedLength(rest);
    if |bytes| >= 3 {
      ThreeMore(|rest|);
    }
    if i >= 4 {
      PaddingIsLast(rest, i - 4);
      assert Encode(bytes)[i] == Encode(rest)[i - 4];
    } else {
      GroupPadding(chunk, i);
    }
  }

  // ----- what is no encoding ---------------------------------------------------------------

  predicate IsSymbol(c: char) {
    'A' <= c <= 'Z' || 'a' <= c <= 'z' || '0' <= c <= '9' || c == '+' || c == '/'
  }

  /** A group has symbols, and padding only in its last two places. */
  lemma UngroupedSymbols(g: string)
    requires |g| == 4 && Ungroup(g).Some?
    ensures IsSymbol(g[0]) && IsSymbol(g[1])
    ensures |Ungroup(g).value| == 3 ==> IsSymbol(g[2]) && IsSymbol(g[3])
    ensures |Ungroup(g).value| == 2 ==> IsSymbol(g[2]) && g[3] == '='
    ensures |Ungroup(g).value| == 1 ==> g[2] == '=' && g[3] == '='
    ensures 1 <= |Ungroup(g).value| <= 3
  {
  }

  /** Whole groups of symbols, and padding in the last two places only, the very last first. */
  ghost predicate WellPadded(s: string) {
    && |s| % 4 == 0
    && (forall i :: 0 <= i < |s| - 2 ==> IsSymbol(s[i]))
    && (s != "" ==> (IsSymbol(s[|s| - 2]) || (s[|s| - 2] == '=' && s[|s| - 1] == '='))
                    && (IsSymbol(s[|s| - 1]) || s[|s| - 1] == '='))
  }

  lemma DecodedGroup(s: string)
    requires s != "" && Decode(s).Some?
    ensures |s| >= 4 && Ungroup(s[..4]).Some? && Decode(s[4..]).Some?
    ensures |s| > 4 ==> |Ungroup(s[..4]).value| >= 3
  {
  }

  lemma OneGroupPadded(g: string)
    requires |g| == 4 && Ungroup(g).Some?
    ensures WellPadded(g)
  {
    UngroupedSymbols(g);
  }

  lemma GroupBefore(g: string, rest: string)
    requires |g| == 4 && rest != "" && WellPadded(rest)
    requires IsSymbol(g[0]) && IsSymbol(g[1]) && IsSymbol(g[2]) && IsSymbol(g[3])
    ensures WellPadded(g + rest)
  {
    var s := g + rest;
    forall i | 0 <= i < |s| - 2
      ensures IsSymbol(s[i])
    {
      assert if i < 4 then s[i] == g[i] else s[i] == rest[i - 4];
    }
  }

  /** Only well-padded text decodes. */
  lemma {:induction false} DecodableText(s: string)
    requires Decode(s).Some?
    ensures WellPadded(s)
    decreases |s|
  {
    if s != "" {
      DecodedGroup(s);
      var g, rest := s[..4], s[4..];
      assert s == g + rest;
      UngroupedSymbols(g);
      if rest == "" {
        OneGroupPadded(g);
      } else {
        DecodableText(rest);
        GroupBefore(g, rest);
      }
    }
  }
}
