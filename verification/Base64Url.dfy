/** Base64url without padding, as section 5 of RFC 4648 and Appendix C of RFC 7515 describe it. */
module Base64Url {
  import opened Common

  type Byte = x: int | 0 <= x < 256

  const PAD := '='

  /** The letter of a six-bit value. */
  function Letter(v: int): char
    requires 0 <= v < 64
  {
    if v < 26 then 'A' + v as char
    else if v < 52 then 'a' + (v - 26) as char
    else if v < 62 then '0' + (v - 52) as char
    else if v == 62 then '-' else '_'
  }

  /** What the decoder makes of a character: besides the letters it knows '+' and '/', which the translation from the
      URL alphabet leaves as they are. */
  function ValueOf(c: char): (v: Option<int>)
    ensures v.Some? ==> 0 <= v.value < 64
  {
    if 'A' <= c <= 'Z' then Some((c - 'A') as int)
    else if 'a' <= c <= 'z' then Some((c - 'a') as int + 26)
    else if '0' <= c <= '9' then Some((c - '0') as int + 52)
    else if c == '-' || c == '+' then Some(62)
    else if c == '_' || c == '/' then Some(63)
    else None
  }

  /** The characters an encoding is made of. */
  predicate IsLetter(c: char) {
    ValueOf(c).Some? && c != '+' && c != '/'
  }

  predicate IsAscii(s: string) {
    forall i :: 0 <= i < |s| ==> s[i] < '\U{80}'
  }

  lemma LetterReadsBack(v: int)
    requires 0 <= v < 64
    ensures ValueOf(Letter(v)) == Some(v) && IsLetter(Letter(v))
  {
  }

  lemma LettersAreSafe(c: char)
    requires IsLetter(c)
    ensures c != PAD && c != '.' && c < '\U{80}'
  {
  }

  // ----- With padding: base64.urlsafe_b64encode and urlsafe_b64decode

  function Group(x: Byte, y: Byte, z: Byte): string {
    [Letter(x / 4), Letter(x % 4 * 16 + y / 16), Letter(y % 16 * 4 + z / 64), Letter(z % 64)]
  }

  /** The last group, of one or two bytes. */
  function LastGroup(data: seq<Byte>): string
    requires 1 <= |data| <= 2
  {
    if |data| == 1 then [Letter(data[0] / 4), Letter(data[0] % 4 * 16), PAD, PAD]
    else [Letter(data[0] / 4), Letter(data[0] % 4 * 16 + data[1] / 16), Letter(data[1] % 16 * 4), PAD]
  }

  function Encode(data: seq<Byte>): string {
    if data == [] then ""
    else if |data| < 3 then LastGroup(data)
    else Group(data[0], data[1], data[2]) + Encode(data[3..])
  }

  /** The bytes of one group of four characters; the bits that a padded group does not use are ignored. */
  function DecodeGroup(a: char, b: char, c: char, d: char): Option<seq<Byte>> {
    match (ValueOf(a), ValueOf(b), ValueOf(c), ValueOf(d))
    case (Some(p), Some(q), Some(r), Some(s)) => Some([p * 4 + q / 16, q % 16 * 16 + r / 4, r % 4 * 64 + s])
    case (Some(p), Some(q), Some(r), None) => if d == PAD then Some([p * 4 + q / 16, q % 16 * 16 + r / 4]) else None
    case (Some(p), Some(q), None, None) => if c == PAD && d == PAD then Some([p * 4 + q / 16]) else None
    case _ => None
  }

  function Prepend(byte: Byte, rest: Option<seq<Byte>>): Option<seq<Byte>> {
    if rest.None? then None else Some([byte] + rest.value)
  }

  /** The decoder's loop over the characters left, `quad` of a group read, `left` the bits not yet used and `pads` the
      padding seen. Characters that stand for nothing are skipped; enough padding ends the text. */
  function Scan(s: string, quad: nat, left: nat, pads: nat): Option<seq<Byte>>
    requires quad <= 3 && (quad == 1 ==> left < 64) && (quad == 2 ==> left < 16) && (quad == 3 ==> left < 4)
  {
    if s == "" then (if quad == 0 then Some([]) else None)
    else if s[0] == PAD then
      if quad >= 2 && quad + pads + 1 >= 4 then Some([])
      else Scan(s[1..], quad, left, if quad >= 2 then pads + 1 else pads)
    else if ValueOf(s[0]).None? then Scan(s[1..], quad, left, pads)
    else
      var v := ValueOf(s[0]).value;
      match quad
      case 0 => Scan(s[1..], 1, v, 0)
      case 1 => Prepend(left * 4 + v / 16, Scan(s[1..], 2, v % 16, 0))
      case 2 => Prepend(left * 16 + v / 4, Scan(s[1..], 3, v % 4, 0))
      case _ => Prepend(left * 64 + v, Scan(s[1..], 0, 0, 0))
  }

  function Decode(s: string): Option<seq<Byte>> {
    Scan(s, 0, 0, 0)
  }

  // ----- Without padding: _b64url_encode and _b64url_decode

  function StripRight(s: string): string {
    if s != "" && s[|s| - 1] == PAD then StripRight(s[..|s| - 1]) else s
  }

  function B64UrlEncode(data: seq<Byte>): string {
    StripRight(Encode(data))
  }

  function Padded(s: string): string {
    var padding := 4 - |s| % 4;
    if padding != 4 then s + seq(padding, i => PAD) else s
  }

  function B64UrlDecode(s: string): Option<seq<Byte>> {
    if IsAscii(s) then Decode(Padded(s)) else None
  }

  // ----- The loop, group by group

  /** Four characters that stand for something are a group of three bytes, wherever they come. */
  lemma GroupDecodes(s: string)
    requires |s| >= 4 && forall i :: 0 <= i < 4 ==> ValueOf(s[i]).Some?
    ensures
      var g, rest := DecodeGroup(s[0], s[1], s[2], s[3]), Decode(s[4..]);
      && g.Some? && |g.value| == 3
      && Decode(s) == if rest.None? then None else Some(g.value + rest.value)
  {
    var p, q, r, t := ValueOf(s[0]).value, ValueOf(s[1]).value, ValueOf(s[2]).value, ValueOf(s[3]).value;
    assert s[0] != PAD && s[1] != PAD && s[2] != PAD && s[3] != PAD;
    hide ValueOf;
    var u1, u2, u3 := s[1..], s[2..], s[3..];
    assert u1[0] == s[1] && u1[1..] == u2 && u2[0] == s[2] && u2[1..] == u3 && u3[0] == s[3] && u3[1..] == s[4..];
    assert Scan(u3, 3, r % 4, 0) == Prepend(r % 4 * 64 + t, Decode(s[4..]));
    assert Scan(u2, 2, q % 16, 0) == Prepend(q % 16 * 16 + r / 4, Scan(u3, 3, r % 4, 0));
    assert Scan(u1, 1, p, 0) == Prepend(p * 4 + q / 16, Scan(u2, 2, q % 16, 0));
    assert Scan(s, 0, 0, 0) == Scan(u1, 1, p, 0);
    hide Scan;
    var rest := Decode(s[4..]);
    if rest.Some? {
      var x, y, z: Byte := p * 4 + q / 16, q % 16 * 16 + r / 4, r % 4 * 64 + t;
      assert [x] + ([y] + ([z] + rest.value)) == [x, y, z] + rest.value;
    }
  }

  /** A padded group ends the text. */
  lemma LastGroupDecodes(t: string)
    requires |t| == 4 && t[3] == PAD && DecodeGroup(t[0], t[1], t[2], t[3]).Some?
    ensures Decode(t) == DecodeGroup(t[0], t[1], t[2], t[3])
  {
    var p, q := ValueOf(t[0]).value, ValueOf(t[1]).value;
    assert t[0] != PAD && t[1] != PAD && ValueOf(PAD).None?;
    hide ValueOf;
    var u1, u2, u3 := t[1..], t[2..], t[3..];
    assert u1[0] == t[1] && u1[1..] == u2 && u2[0] == t[2] && u2[1..] == u3 && u3[0] == PAD;
    assert Scan(t, 0, 0, 0) == Scan(u1, 1, p, 0) == Prepend(p * 4 + q / 16, Scan(u2, 2, q % 16, 0));
    var x: Byte := p * 4 + q / 16;
    assert [x] + [] == [x];
    if t[2] == PAD {
      assert Scan(u3, 2, q % 16, 1) == Some([]);
      assert Scan(u2, 2, q % 16, 0) == Scan(u3, 2, q % 16, 1);
    } else {
      var r := ValueOf(t[2]).value;
      var y: Byte := q % 16 * 16 + r / 4;
      assert [y] + [] == [y] && [x] + [y] == [x, y];
      assert Scan(u3, 3, r % 4, 0) == Some([]);
      assert Scan(u2, 2, q % 16, 0) == Prepend(q % 16 * 16 + r / 4, Scan(u3, 3, r % 4, 0));
    }
  }

  /** One character alone is no group. */
  lemma OneLetterDoesNotDecode(a: char)
    requires ValueOf(a).Some?
    ensures Decode([a, PAD, PAD, PAD]).None?
  {
    var t := [a, PAD, PAD, PAD];
    var v := ValueOf(a).value;
    assert t[1..] == [PAD, PAD, PAD] && [PAD, PAD, PAD][1..] == [PAD, PAD]
       && [PAD, PAD][1..] == [PAD] && [PAD][1..] == "";
    assert Scan("", 1, v, 0).None?;
    assert Scan([PAD], 1, v, 0).None?;
    assert Scan([PAD, PAD], 1, v, 0).None?;
    assert Scan([PAD, PAD, PAD], 1, v, 0).None?;
    assert Scan(t, 0, 0, 0) == Scan([PAD, PAD, PAD], 1, v, 0);
  }

  // ----- Round trip

  /** Cutting three bytes into four six-bit values loses nothing. */
  lemma BitsFitTogether(x: Byte, y: Byte, z: Byte)
    ensures
      var q, r := x % 4 * 16 + y / 16, y % 16 * 4 + z / 64;
      && q / 16 == x % 4 && q % 16 == y / 16 && r / 4 == y % 16 && r % 4 == z / 64
      && x / 4 * 4 + q / 16 == x && q % 16 * 16 + r / 4 == y && r % 4 * 64 + z % 64 == z
  {
  }

  lemma GroupRoundTrip(x: Byte, y: Byte, z: Byte)
    ensures
      var g := Group(x, y, z);
      DecodeGroup(g[0], g[1], g[2], g[3]) == Some([x, y, z])
  {
    LetterReadsBack(x / 4);
    LetterReadsBack(x % 4 * 16 + y / 16);
    LetterReadsBack(y % 16 * 4 + z / 64);
    LetterReadsBack(z % 64);
    BitsFitTogether(x, y, z);
    hide Letter, ValueOf;
    var q, r := x % 4 * 16 + y / 16, y % 16 * 4 + z / 64;
    var g := Group(x, y, z);
    assert g[0] == Letter(x / 4) && g[1] == Letter(q) && g[2] == Letter(r) && g[3] == Letter(z % 64);
  }

  lemma LastGroupRoundTrip(data: seq<Byte>)
    requires 1 <= |data| <= 2
    ensures
      var g := LastGroup(data);
      DecodeGroup(g[0], g[1], g[2], g[3]) == Some(data)
  {
    var x, y := data[0], if |data| == 2 then data[1] else 0;
    LetterReadsBack(x / 4);
    LetterReadsBack(x % 4 * 16 + y / 16);
    LetterReadsBack(y % 16 * 4);
    assert ValueOf(PAD).None?;
    hide Letter, ValueOf;
    assert data == if |data| == 2 then [x, y] else [x];
  }

  lemma {:induction false} PaddedRoundTrip(data: seq<Byte>)
    ensures Decode(Encode(data)) == Some(data)
  {
    if data != [] {
      GroupLengths(data);
      GroupShape(data);
      if |data| < 3 {
        LastGroupRoundTrip(data);
        hide LastGroup, DecodeGroup, IsLetter, Scan;
        LastGroupDecodes(LastGroup(data));
      } else {
        var x, y, z := data[0], data[1], data[2];
        GroupRoundTrip(x, y, z);
        PaddedRoundTrip(data[3..]);
        hide Group, DecodeGroup, ValueOf, Decode;
        GroupDecodes(Encode(data));
        assert Encode(data)[4..] == Encode(data[3..]);
        assert data == [x, y, z] + data[3..];
      }
    }
  }

  lemma GroupLengths(data: seq<Byte>)
    requires data != []
    ensures |data| < 3 ==> |LastGroup(data)| == 4
    ensures |data| >= 3 ==> |Group(data[0], data[1], data[2])| == 4
  {
  }

  /** How many padding characters the encoding of `n` bytes ends with. */
  function PadLength(n: nat): nat {
    if n % 3 == 0 then 0 else 3 - n % 3
  }

  /** Letters only, then `n` padding characters. */
  predicate LettersThenPadding(s: string, n: nat) {
    && n <= |s|
    && (forall i :: 0 <= i < |s| - n ==> IsLetter(s[i]))
    && (forall i :: |s| - n <= i < |s| ==> s[i] == PAD)
  }

  lemma GroupShape(data: seq<Byte>)
    requires data != []
    ensures |data| < 3 ==> LettersThenPadding(LastGroup(data), PadLength(|data|))
    ensures |data| >= 3 ==> LettersThenPadding(Group(data[0], data[1], data[2]), 0)
  {
    forall v | 0 <= v < 64 ensures IsLetter(Letter(v)) {
      LetterReadsBack(v);
    }
    hide Letter, ValueOf;
  }

  /** An encoding is a whole number of groups, and only the end of it is padding. */
  lemma {:induction false} EncodingShape(data: seq<Byte>)
    ensures |Encode(data)| == (|data| + 2) / 3 * 4 && LettersThenPadding(Encode(data), PadLength(|data|))
  {
    hide Group, LastGroup, IsLetter;
    if data != [] {
      GroupLengths(data);
      GroupShape(data);
      if |data| >= 3 {
        EncodingShape(data[3..]);
      }
    }
  }

  lemma {:induction false} StripsThePadding(s: string, n: nat)
    requires n <= |s| && forall i :: |s| - n <= i < |s| ==> s[i] == PAD
    requires n < |s| ==> s[|s| - n - 1] != PAD
    ensures StripRight(s) == s[..|s| - n]
    decreases n
  {
    if n > 0 {
      StripsThePadding(s[..|s| - 1], n - 1);
    }
  }

  /** Stripping removes exactly the padding, and decoding puts exactly that padding back. */
  lemma PaddingIsRestored(data: seq<Byte>)
    ensures B64UrlEncode(data) == Encode(data)[..|Encode(data)| - PadLength(|data|)]
    ensures Padded(B64UrlEncode(data)) == Encode(data)
    ensures forall i :: 0 <= i < |B64UrlEncode(data)| ==> IsLetter(B64UrlEncode(data)[i])
  {
    hide Encode, PadLength, StripRight, LettersThenPadding, Refills, Padded;
    EncodingRefills(data);
    StripThenPad(Encode(data), PadLength(|data|));
  }

  lemma EncodingRefills(data: seq<Byte>)
    ensures
      var s, n := Encode(data), PadLength(|data|);
      LettersThenPadding(s, n) && Refills(n, |s| - n)
  {
    EncodingShape(data);
    PaddedLength(|data|, |Encode(data)|);
    hide Encode, PadLength, LettersThenPadding, Refills;
  }

  lemma StripThenPad(s: string, n: nat)
    requires LettersThenPadding(s, n) && Refills(n, |s| - n)
    ensures n <= |s| && StripRight(s) == s[..|s| - n] && Padded(StripRight(s)) == s
    ensures forall i :: 0 <= i < |StripRight(s)| ==> IsLetter(StripRight(s)[i])
  {
    hide IsLetter, StripRight, LettersThenPadding, Refills, Padded;
    StrippedShape(s, n);
    PadsBack(s[..|s| - n], s, n);
  }

  /** Six bits a letter, the last letter filled up. */
  lemma EncodedLength(data: seq<Byte>)
    ensures |B64UrlEncode(data)| == (4 * |data| + 2) / 3
  {
    PaddingIsRestored(data);
    EncodingShape(data);
    PaddedLength(|data|, |Encode(data)|);
    hide B64UrlEncode, Encode, PadLength, Padded, LettersThenPadding, Refills;
  }

  lemma StrippedShape(s: string, n: nat)
    requires LettersThenPadding(s, n)
    ensures n <= |s| && StripRight(s) == s[..|s| - n]
    ensures forall i :: 0 <= i < |s| - n ==> IsLetter(s[i])
    ensures forall i :: |s| - n <= i < |s| ==> s[i] == PAD
  {
    if n < |s| {
      LettersAreSafe(s[|s| - n - 1]);
    }
    hide IsLetter;
    StripsThePadding(s, n);
  }

  lemma PadsBack(front: string, s: string, n: nat)
    requires n <= |s| && front == s[..|s| - n] && forall i :: |s| - n <= i < |s| ==> s[i] == PAD
    requires Refills(n, |front|)
    ensures Padded(front) == s
  {
    assert s == front + s[|s| - n..];
    assert s[|s| - n..] == seq(n, i => PAD);
  }

  /** `n` characters fill `length` up to a multiple of four. */
  predicate Refills(n: nat, length: int) {
    n == if length % 4 == 0 then 0 else 4 - length % 4
  }

  lemma PaddedLength(n: nat, length: nat)
    requires length == (n + 2) / 3 * 4
    ensures length - PadLength(n) == (4 * n + 2) / 3
    ensures Refills(PadLength(n), length - PadLength(n))
  {
    var q := n / 3;
    if n % 3 == 0 {
      assert n == 3 * q && length == 4 * q;
    } else if n % 3 == 1 {
      assert n == 3 * q + 1 && length == 4 * q + 4 && length - PadLength(n) == 4 * q + 2;
    } else {
      assert n == 3 * q + 2 && length == 4 * q + 4 && length - PadLength(n) == 4 * q + 3;
    }
  }

  /** Every byte string survives encoding and decoding. */
  lemma RoundTrip(data: seq<Byte>)
    ensures B64UrlDecode(B64UrlEncode(data)) == Some(data)
  {
    PaddingIsRestored(data);
    PaddedRoundTrip(data);
    OnlyLetters(data);
    hide Encode, Decode, B64UrlEncode;
  }

  /** The output is made of the 64 letters: it holds no padding and no dot, and is ASCII. */
  lemma OnlyLetters(data: seq<Byte>)
    ensures forall c :: c in B64UrlEncode(data) ==> IsLetter(c) && c != PAD && c != '.' && c < '\U{80}'
  {
    PaddingIsRestored(data);
    hide B64UrlEncode, IsLetter;
    forall c | c in B64UrlEncode(data) ensures IsLetter(c) && c != PAD && c != '.' && c < '\U{80}' {
      LettersAreSafe(c);
    }
  }

  // ----- Encoding what was decoded

  predicate AllLetters(s: string) {
    forall i :: 0 <= i < |s| ==> IsLetter(s[i])
  }

  /** The bits of the last letter that no byte uses; decoding ignores them. */
  function SpareBits(s: string): int
    requires AllLetters(s)
  {
    if |s| % 4 == 2 then ValueOf(s[|s| - 1]).value % 16
    else if |s| % 4 == 3 then ValueOf(s[|s| - 1]).value % 4
    else 0
  }

  lemma LetterIsItsOwn(c: char)
    requires IsLetter(c)
    ensures Letter(ValueOf(c).value) == c
  {
  }

  lemma SixBitsAgain(p: int, q: int, r: int, s: int)
    requires 0 <= p < 64 && 0 <= q < 64 && 0 <= r < 64 && 0 <= s < 64
    ensures
      var x, y, z := p * 4 + q / 16, q % 16 * 16 + r / 4, r % 4 * 64 + s;
      && 0 <= x < 256 && 0 <= y < 256 && 0 <= z < 256
      && x / 4 == p && x % 4 * 16 + y / 16 == q && y % 16 * 4 + z / 64 == r && z % 64 == s
      && (x % 4 * 16 == q <==> q % 16 == 0) && (y % 16 * 4 == r <==> r % 4 == 0)
  {
  }

  lemma FullGroupAgain(s: string)
    requires |s| == 4 && AllLetters(s)
    ensures
      var g := DecodeGroup(s[0], s[1], s[2], s[3]);
      g.Some? && |g.value| == 3 && Group(g.value[0], g.value[1], g.value[2]) == s
  {
    var p, q, r, t := ValueOf(s[0]).value, ValueOf(s[1]).value, ValueOf(s[2]).value, ValueOf(s[3]).value;
    SixBitsAgain(p, q, r, t);
    LetterIsItsOwn(s[0]);
    LetterIsItsOwn(s[1]);
    LetterIsItsOwn(s[2]);
    LetterIsItsOwn(s[3]);
    hide Letter, ValueOf;
  }

  lemma LetterIff(v: int, c: char)
    requires 0 <= v < 64 && IsLetter(c)
    ensures Letter(v) == c <==> v == ValueOf(c).value
  {
    LetterReadsBack(v);
    LetterIsItsOwn(c);
  }

  /** A last group is written back as it was read exactly if it has no spare bits set. */
  lemma TwoLettersAgainIff(a: char, b: char)
    requires IsLetter(a) && IsLetter(b)
    ensures
      var g := DecodeGroup(a, b, PAD, PAD);
      g.Some? && |g.value| == 1 && (LastGroup(g.value) == [a, b, PAD, PAD] <==> ValueOf(b).value % 16 == 0)
  {
    var p, q := ValueOf(a).value, ValueOf(b).value;
    SixBitsAgain(p, q, 0, 0);
    LetterIsItsOwn(a);
    LetterIff(q / 16 * 16, b);
    assert ValueOf(PAD).None?;
    hide Letter, ValueOf;
    var g := DecodeGroup(a, b, PAD, PAD);
    assert g == Some([p * 4 + q / 16]);
    assert LastGroup(g.value) == [a, Letter(q / 16 * 16), PAD, PAD];
  }

  lemma ThreeLettersAgainIff(a: char, b: char, c: char)
    requires IsLetter(a) && IsLetter(b) && IsLetter(c)
    ensures
      var g := DecodeGroup(a, b, c, PAD);
      g.Some? && |g.value| == 2 && (LastGroup(g.value) == [a, b, c, PAD] <==> ValueOf(c).value % 4 == 0)
  {
    var p, q, r := ValueOf(a).value, ValueOf(b).value, ValueOf(c).value;
    SixBitsAgain(p, q, r, 0);
    LetterIsItsOwn(a);
    LetterIsItsOwn(b);
    LetterIff(r / 4 * 4, c);
    assert ValueOf(PAD).None?;
    hide Letter, ValueOf;
    var g := DecodeGroup(a, b, c, PAD);
    assert g == Some([p * 4 + q / 16, q % 16 * 16 + r / 4]);
    assert LastGroup(g.value) == [a, b, Letter(r / 4 * 4), PAD];
  }

  /** The same for a whole text, before stripping. */
  lemma {:induction false} PaddedAgainIff(s: string)
    requires AllLetters(s) && Decode(Padded(s)).Some?
    ensures Encode(Decode(Padded(s)).value) == Padded(s) <==> SpareBits(s) == 0
    decreases |s|
  {
    if |s| >= 4 {
      SpareBitsOfTail(s);
      hide Encode, Decode, Padded, AllLetters, SpareBits;
      SameForTail(s);
      PaddedAgainIff(s[4..]);
    } else {
      ShortAgainIff(s);
    }
  }

  lemma SpareBitsOfTail(s: string)
    requires |s| >= 4 && AllLetters(s)
    ensures AllLetters(s[4..]) && SpareBits(s[4..]) == SpareBits(s)
  {
    hide IsLetter, ValueOf;
    assert |s[4..]| % 4 == |s| % 4;
  }

  lemma SameForTail(s: string)
    requires |s| >= 4 && AllLetters(s) && Decode(Padded(s)).Some?
    ensures Decode(Padded(s[4..])).Some?
    ensures Encode(Decode(Padded(s)).value) == Padded(s)
       <==> Encode(Decode(Padded(s[4..])).value) == Padded(s[4..])
  {
    var group, rest := s[..4], s[4..];
    FullGroupAgain(group);
    PaddedTail(s);
    GroupDecodes(Padded(s));
    hide DecodeGroup, Group, ValueOf, Decode, IsLetter, Padded;
    var x := DecodeGroup(s[0], s[1], s[2], s[3]).value;
    var y := Decode(Padded(rest)).value;
    assert Decode(Padded(s)) == Some(x + y) && (x + y)[3..] == y;
    assert Encode(x + y) == group + Encode(y);
    assert Padded(s) == group + Padded(rest);
  }

  lemma ShortAgainIff(s: string)
    requires AllLetters(s) && |s| < 4 && Decode(Padded(s)).Some?
    ensures Encode(Decode(Padded(s)).value) == Padded(s) <==> SpareBits(s) == 0
  {
    hide DecodeGroup, LastGroup, Group, ValueOf, Scan;
    if |s| == 3 {
      ThreeLettersAgainIff(s[0], s[1], s[2]);
      assert Padded(s) == [s[0], s[1], s[2], PAD];
      LastGroupDecodes(Padded(s));
    } else if |s| == 2 {
      TwoLettersAgainIff(s[0], s[1]);
      assert Padded(s) == [s[0], s[1], PAD, PAD];
      LastGroupDecodes(Padded(s));
    } else if |s| == 1 {
      assert Padded(s) == [s[0], PAD, PAD, PAD];
      OneLetterDoesNotDecode(s[0]);
    } else {
      EmptyDecodes();
    }
  }

  lemma EmptyDecodes()
    ensures Decode("") == Some([])
  {
  }

  lemma PaddedTail(s: string)
    requires |s| >= 4
    ensures |Padded(s)| >= 4 && Padded(s)[..4] == s[..4] && Padded(s)[4..] == Padded(s[4..])
  {
  }

  /** A text that decodes is the encoding of what it decodes to if and only if it is made of letters alone and its
      spare bits are zero: decoding takes '+' and '/' as well, skips what stands for nothing, stops at the padding, and
      ignores spare bits, so other texts decode to the same bytes. */
  lemma DecodedThenEncodedIff(s: string)
    requires B64UrlDecode(s).Some?
    ensures B64UrlEncode(B64UrlDecode(s).value) == s <==> AllLetters(s) && SpareBits(s) == 0
  {
    var data := B64UrlDecode(s).value;
    PaddingIsRestored(data);
    if AllLetters(s) {
      PaddedAgainIff(s);
      if s != "" {
        LettersAreSafe(s[|s| - 1]);
      }
      hide IsLetter, Encode, Decode, SpareBits;
      StripsThePadding(Padded(s), |Padded(s)| - |s|);
      assert Padded(s)[..|s|] == s;
    }
  }
}
