/** Base64url text by text: which letter stands for which bits, and what the decoder makes of texts that no encoder
    writes. */
module Base64Text {
  import opened Common
  import opened Base64Url

  // ----- The letters, without the formulas of the groups

  /** The letters of RFC 4648, Table 2, in their order: capitals, small letters, digits, '-' and '_'. */
  lemma AlphabetInOrder(v: int)
    ensures Letter(0) == 'A' && Letter(25) == 'Z' && Letter(26) == 'a' && Letter(51) == 'z'
    ensures Letter(52) == '0' && Letter(61) == '9' && Letter(62) == '-' && Letter(63) == '_'
    ensures 0 <= v < 61 && v != 25 && v != 51 ==> Letter(v + 1) as int == Letter(v) as int + 1
  {
  }

  function ByteAt(data: seq<Byte>, i: nat): (x: Byte) {
    if i < |data| then data[i] else 0
  }

  /** Bits 6k to 6k + 5 of the data, most significant first, with zeros behind the end: they lie in two neighbouring
      bytes. */
  function Sextet(data: seq<Byte>, k: nat): (v: int)
    ensures 0 <= v < 64
  {
    SixBits(ByteAt(data, 6 * k / 8), ByteAt(data, 6 * k / 8 + 1), 6 * k % 8)
  }

  /** The six bits from bit `from` on of two bytes. */
  function SixBits(x: Byte, y: Byte, from: int): (v: int)
    ensures 0 <= v < 64
  {
    var below := if from == 0 then 1024 else if from == 2 then 256 else if from == 4 then 64 else 16;
    (x * 256 + y) / below % 64
  }

  lemma SixBitsFrom0(x: Byte, y: Byte)
    ensures SixBits(x, y, 0) == x / 4
  {
  }

  lemma SixBitsFrom2(x: Byte, y: Byte)
    ensures SixBits(x, y, 2) == x % 64
  {
  }

  lemma SixBitsFrom4(x: Byte, y: Byte)
    ensures SixBits(x, y, 4) == x % 16 * 4 + y / 64
  {
    assert (x * 256 + y) / 64 == x * 4 + y / 64;
    var q, r, s := x / 16, x % 16, y / 64;
    assert x * 4 + y / 64 == 64 * q + (r * 4 + s);
  }

  lemma SixBitsFrom6(x: Byte, y: Byte)
    ensures SixBits(x, y, 6) == x % 4 * 16 + y / 16
  {
    assert (x * 256 + y) / 16 == x * 16 + y / 16;
    var q, r, s := x / 4, x % 4, y / 16;
    assert x * 16 + y / 16 == 64 * q + (r * 16 + s);
  }

  lemma FirstSextets(data: seq<Byte>)
    ensures
      var x, y, z := ByteAt(data, 0), ByteAt(data, 1), ByteAt(data, 2);
      && Sextet(data, 0) == x / 4 && Sextet(data, 1) == x % 4 * 16 + y / 16
      && Sextet(data, 2) == y % 16 * 4 + z / 64 && Sextet(data, 3) == z % 64
  {
    var x, y, z := ByteAt(data, 0), ByteAt(data, 1), ByteAt(data, 2);
    assert Sextet(data, 0) == SixBits(x, y, 0) && Sextet(data, 1) == SixBits(x, y, 6);
    assert Sextet(data, 2) == SixBits(y, z, 4) && Sextet(data, 3) == SixBits(z, ByteAt(data, 3), 2);
    hide SixBits, Sextet;
    SixBitsFrom0(x, y);
    SixBitsFrom6(x, y);
    SixBitsFrom4(y, z);
    SixBitsFrom2(z, ByteAt(data, 3));
  }

  lemma GroupIsSextets(data: seq<Byte>, k: nat)
    requires |data| >= 3 && k < 4
    ensures |Group(data[0], data[1], data[2])| == 4
    ensures Group(data[0], data[1], data[2])[k] == Letter(Sextet(data, k))
  {
    hide Letter, Sextet;
    FirstSextets(data);
  }

  lemma LastGroupIsSextets(data: seq<Byte>, k: nat)
    requires 1 <= |data| <= 2 && k <= |data|
    ensures |LastGroup(data)| == 4 && LastGroup(data)[k] == Letter(Sextet(data, k))
  {
    hide Letter, Sextet;
    FirstSextets(data);
  }

  lemma SextetOfTail(data: seq<Byte>, k: nat)
    requires |data| >= 3 && k >= 4
    ensures Sextet(data, k) == Sextet(data[3..], k - 4)
  {
    assert 6 * k / 8 == 6 * (k - 4) / 8 + 3 && 6 * k % 8 == 6 * (k - 4) % 8;
    hide SixBits;
  }

  lemma {:induction false} EncodeIsSextets(data: seq<Byte>, k: nat)
    requires 6 * k < 8 * |data|
    ensures k < |Encode(data)| && Encode(data)[k] == Letter(Sextet(data, k))
    decreases |data|
  {
    hide Letter, Group, LastGroup, Sextet;
    if |data| < 3 {
      LastGroupIsSextets(data, k);
    } else if k < 4 {
      GroupIsSextets(data, k);
    } else {
      GroupIsSextets(data, 0);
      EncodeIsSextets(data[3..], k - 4);
      SextetOfTail(data, k);
    }
  }

  /** The encoding is the data's bits cut into sixes from the front, each six written as its letter. */
  lemma LettersAreSextets(data: seq<Byte>, k: nat)
    requires k < |B64UrlEncode(data)|
    ensures B64UrlEncode(data)[k] == Letter(Sextet(data, k))
  {
    hide B64UrlEncode, Encode, Letter, Sextet;
    PaddingIsRestored(data);
    EncodedLength(data);
    EncodeIsSextets(data, k);
  }

  // ----- What the decoder tolerates

  /** The text as the decoder takes it: '+' and '/' for the last two letters, and nothing that is neither letter nor
      padding. */
  function Cleaned(s: string): string {
    if s == "" then ""
    else
      var c := s[0];
      var kept := if IsLetter(c) || c == PAD then [c] else if c == '+' then "-" else if c == '/' then "_" else "";
      kept + Cleaned(s[1..])
  }

  lemma {:induction false} ScanTolerates(s: string, quad: nat, left: nat, pads: nat)
    requires quad <= 3 && (quad == 1 ==> left < 64) && (quad == 2 ==> left < 16) && (quad == 3 ==> left < 4)
    ensures Scan(s, quad, left, pads) == Scan(Cleaned(s), quad, left, pads)
    decreases |s|
  {
    if s != "" {
      var rest := Cleaned(s[1..]);
      assert (Cleaned(s) == rest || (Cleaned(s) != "" && Cleaned(s)[1..] == rest));
      forall q: nat, l: nat, n: nat
        | q <= 3 && (q == 1 ==> l < 64) && (q == 2 ==> l < 16) && (q == 3 ==> l < 4)
        ensures Scan(s[1..], q, l, n) == Scan(rest, q, l, n)
      {
        ScanTolerates(s[1..], q, l, n);
      }
    }
  }

  /** Decoding a text is decoding it cleaned up. */
  lemma DecodingTolerates(s: string)
    ensures Decode(s) == Decode(Cleaned(s))
  {
    ScanTolerates(s, 0, 0, 0);
  }

  predicate InGroup(quad: int, left: int) {
    && 0 <= quad <= 3 && left >= 0
    && (quad == 1 ==> left < 64) && (quad == 2 ==> left < 16) && (quad == 3 ==> left < 4)
  }

  /** Two texts are read alike `quad` letters into a group. */
  ghost predicate ReadAlike(u: string, v: string, quad: nat) {
    forall l: nat {:trigger InGroup(quad, l)} :: InGroup(quad, l) ==> Scan(u, quad, l, 0) == Scan(v, quad, l, 0)
  }

  /** After the same letters two texts are read alike if they are from there on. */
  lemma {:induction false} SameAfterLetters(t: string, u: string, v: string, quad: nat, left: nat)
    requires AllLetters(t) && InGroup(quad, left) && ReadAlike(u, v, (quad + |t|) % 4)
    ensures Scan(t + u, quad, left, 0) == Scan(t + v, quad, left, 0)
    decreases |t|
  {
    if t == "" {
      assert t + u == u && t + v == v && (quad + |t|) % 4 == quad;
    } else {
      assert (quad + |t|) % 4 == ((quad + 1) % 4 + |t[1..]|) % 4;
      assert (t + u)[1..] == t[1..] + u && (t + v)[1..] == t[1..] + v;
      assert IsLetter(t[0]) && ValueOf(PAD).None?;
      var x := ValueOf(t[0]).value;
      var next: nat := match quad case 0 => x case 1 => x % 16 case 2 => x % 4 case _ => 0;
      hide ValueOf, ReadAlike;
      SameAfterLetters(t[1..], u, v, (quad + 1) % 4, next);
    }
  }

  lemma TwoPadsEnd(u: string)
    ensures forall l: nat {:trigger InGroup(2, l)} :: InGroup(2, l) ==> Scan([PAD, PAD] + u, 2, l, 0) == Some([])
  {
    assert ([PAD, PAD] + u)[1..] == [PAD] + u;
    forall l: nat | InGroup(2, l) ensures Scan([PAD, PAD] + u, 2, l, 0) == Some([]) {
      assert Scan([PAD] + u, 2, l, 1) == Some([]);
    }
  }

  lemma OnePadIsSkipped(u: string)
    requires u != "" && IsLetter(u[0])
    ensures ReadAlike([PAD] + u, u, 2)
  {
    LettersAreSafe(u[0]);
    assert ([PAD] + u)[1..] == u;
    forall l: nat {:trigger InGroup(2, l)} | InGroup(2, l) ensures Scan([PAD] + u, 2, l, 0) == Scan(u, 2, l, 0) {
      assert Scan([PAD] + u, 2, l, 0) == Scan(u, 2, l, 1);
      hide ValueOf;
    }
  }

  lemma OnePadDoesNotEnd()
    ensures ReadsNothing([PAD], 2)
  {
    assert [PAD][1..] == "";
    forall l: nat {:trigger InGroup(2, l)} | InGroup(2, l) ensures Scan([PAD], 2, l, 0).None? {
      assert Scan("", 2, l, 1).None?;
    }
  }

  /** Padding that completes a group ends the text, whatever comes behind it; padding before the third letter of a
      group, or with a letter behind it too early, is skipped. */
  lemma PaddingEndsOrIsSkipped(t: string, u: string)
    requires AllLetters(t)
    ensures |t| % 4 == 2 ==> Decode(t + ([PAD, PAD] + u)) == Decode(t + [PAD, PAD])
    ensures |t| % 4 == 3 ==> Decode(t + ([PAD] + u)) == Decode(t + [PAD])
    ensures |t| % 4 <= 1 ==> Decode(t + ([PAD] + u)) == Decode(t + u)
    ensures |t| % 4 == 2 && u != "" && IsLetter(u[0]) ==> Decode(t + ([PAD] + u)) == Decode(t + u)
  {
    var q := |t| % 4;
    hide ValueOf, AllLetters;
    assert ([PAD] + u)[1..] == u && ([PAD, PAD] + u)[1..] == [PAD] + u && [PAD, PAD][1..] == [PAD];
    if q == 2 {
      assert ReadAlike([PAD, PAD] + u, [PAD, PAD], 2) by {
        TwoPadsEnd(u);
        TwoPadsEnd("");
        assert [PAD, PAD] + "" == [PAD, PAD];
      }
      SameAfterLetters(t, [PAD, PAD] + u, [PAD, PAD], 0, 0);
      if u != "" && IsLetter(u[0]) {
        OnePadIsSkipped(u);
        SameAfterLetters(t, [PAD] + u, u, 0, 0);
      }
    } else if q == 3 {
      SameAfterLetters(t, [PAD] + u, [PAD], 0, 0);
    } else {
      SameAfterLetters(t, [PAD] + u, u, 0, 0);
    }
  }

  /** A text that ends within a group does not decode, unless padding completes the group. */
  lemma UnfinishedGroupFails(t: string)
    requires AllLetters(t)
    ensures |t| % 4 != 0 ==> Decode(t).None?
    ensures |t| % 4 == 2 ==> Decode(t + [PAD]).None?
  {
    assert t + "" == t && [PAD][1..] == "";
    hide AllLetters;
    if |t| % 4 != 0 {
      EndsUnfinished(t, "", 0, 0);
    }
    if |t| % 4 == 2 {
      OnePadDoesNotEnd();
      EndsUnfinished(t, [PAD], 0, 0);
    }
  }

  /** A text is not read to an end `quad` letters into a group. */
  ghost predicate ReadsNothing(u: string, quad: nat) {
    forall l: nat {:trigger InGroup(quad, l)} :: InGroup(quad, l) ==> Scan(u, quad, l, 0).None?
  }

  /** A letter leads on to the next place of its group. */
  lemma OneLetterFurther(s: string, quad: nat, left: nat) returns (next: nat)
    requires s != "" && IsLetter(s[0]) && InGroup(quad, left)
    ensures InGroup((quad + 1) % 4, next)
    ensures Scan(s, quad, left, 0).None? <==> Scan(s[1..], (quad + 1) % 4, next, 0).None?
  {
    assert ValueOf(PAD).None?;
    var x := ValueOf(s[0]).value;
    hide ValueOf;
    next := match quad case 0 => x case 1 => x % 16 case 2 => x % 4 case _ => 0;
  }

  lemma {:induction false} EndsUnfinished(t: string, u: string, quad: nat, left: nat)
    requires AllLetters(t) && InGroup(quad, left) && ReadsNothing(u, (quad + |t|) % 4)
    ensures Scan(t + u, quad, left, 0).None?
    decreases |t|
  {
    if t == "" {
      assert t + u == u && (quad + |t|) % 4 == quad;
    } else {
      assert (quad + |t|) % 4 == ((quad + 1) % 4 + |t[1..]|) % 4;
      assert (t + u)[1..] == t[1..] + u && AllLetters(t[1..]) && IsLetter((t + u)[0]);
      hide ReadsNothing, Scan, AllLetters, IsLetter;
      var next := OneLetterFurther(t + u, quad, left);
      EndsUnfinished(t[1..], u, (quad + 1) % 4, next);
    }
  }
}
