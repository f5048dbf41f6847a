/** Compact tokens, as section 7.1 of RFC 7515 describes them. Ed25519 and JSON are arguments: what is asked of
    them is stated by Sound. */
module Jws {
  import opened Common
  import opened Base64Url

  // ----- Splitting at dots

  /** str.split("."). */
  function Split(s: string): (parts: seq<string>)
    ensures parts != []
    ensures forall i :: 0 <= i < |parts| ==> '.' !in parts[i]
  {
    if s == "" then [""]
    else
      var rest := Split(s[1..]);
      if s[0] == '.' then [""] + rest else [[s[0]] + rest[0]] + rest[1..]
  }

  /** ".".join(parts). */
  function Join(parts: seq<string>): string
    requires parts != []
  {
    if |parts| == 1 then parts[0] else parts[0] + "." + Join(parts[1..])
  }

  lemma {:induction false} SplitWithoutDot(s: string)
    requires '.' !in s
    ensures Split(s) == [s]
  {
    if s != "" {
      SplitWithoutDot(s[1..]);
      assert [s[0]] + s[1..] == s;
    }
  }

  lemma {:induction false} SplitAtFirstDot(s: string, t: string)
    requires '.' !in s
    ensures Split(s + "." + t) == [s] + Split(t)
  {
    if s == "" {
      assert (s + "." + t)[1..] == t;
    } else {
      assert (s + "." + t)[1..] == s[1..] + "." + t;
      SplitAtFirstDot(s[1..], t);
      assert [s[0]] + s[1..] == s;
    }
  }

  /** Splitting undoes joining exactly if no part holds a dot. */
  lemma {:induction false} SplitUndoesJoinIff(parts: seq<string>)
    requires parts != []
    ensures Split(Join(parts)) == parts <==> forall i :: 0 <= i < |parts| ==> '.' !in parts[i]
  {
    if forall i :: 0 <= i < |parts| ==> '.' !in parts[i] {
      if |parts| == 1 {
        SplitWithoutDot(parts[0]);
      } else {
        SplitAtFirstDot(parts[0], Join(parts[1..]));
        SplitUndoesJoinIff(parts[1..]);
      }
    }
  }

  /** Joining always undoes splitting. */
  lemma {:induction false} JoinUndoesSplit(s: string)
    ensures Join(Split(s)) == s
  {
    if s != "" {
      var rest := Split(s[1..]);
      JoinUndoesSplit(s[1..]);
      if s[0] == '.' {
        assert ([""] + rest)[1..] == rest;
      } else {
        assert ([[s[0]] + rest[0]] + rest[1..])[1..] == rest[1..];
      }
    }
  }

  // ----- Tokens

  /** JSON text and one key pair. */
  datatype Scheme<!P> = Scheme(
    header: Option<string> -> seq<Byte>,
    dumps: P -> seq<Byte>,
    loads: seq<Byte> -> Option<P>,
    sign: seq<Byte> -> seq<Byte>,
    verify: (seq<Byte>, seq<Byte>) -> bool)

  /** Reading what was written gives it back, and a signature made with the key verifies. */
  ghost predicate Sound<P(!new)>(s: Scheme<P>) {
    && (forall p :: s.loads(s.dumps(p)) == Some(p))
    && (forall m :: s.verify(s.sign(m), m))
  }

  datatype TokenError = InvalidFormat | NotAscii | BadEncoding | InvalidSignature | BadPayload

  function Ascii(s: string): seq<Byte>
    requires IsAscii(s)
  {
    if s == "" then [] else
      var code: Byte := s[0] as int;
      [code] + Ascii(s[1..])
  }

  /** The bytes are the codes of the characters, each of them and in order. */
  lemma {:induction false} AsciiIsCodes(s: string)
    requires IsAscii(s)
    ensures |Ascii(s)| == |s| && forall i :: 0 <= i < |s| ==> Ascii(s)[i] == s[i] as int && Ascii(s)[i] <= 127
  {
    if s != "" {
      AsciiIsCodes(s[1..]);
      assert forall i :: 0 < i < |s| ==> Ascii(s)[i] == Ascii(s[1..])[i - 1];
    }
  }

  lemma AsciiIsInjective(s: string, t: string)
    requires IsAscii(s) && IsAscii(t) && Ascii(s) == Ascii(t)
    ensures s == t
  {
    AsciiIsCodes(s);
    AsciiIsCodes(t);
    forall i | 0 <= i < |s| ensures s[i] == t[i] {
      assert s[i] as int == t[i] as int;
    }
  }

  /** What the signature of a token covers. */
  function SigningInput(header: string, payload: string): string {
    header + "." + payload
  }

  lemma EncodedInputIsAscii(header: seq<Byte>, payload: seq<Byte>)
    ensures IsAscii(SigningInput(B64UrlEncode(header), B64UrlEncode(payload)))
  {
    OnlyLetters(header);
    OnlyLetters(payload);
    var a, b := B64UrlEncode(header), B64UrlEncode(payload);
    hide B64UrlEncode, IsLetter;
    forall i | 0 <= i < |a + "." + b| ensures (a + "." + b)[i] < '\U{80}' {
      if i < |a| {
        assert a[i] in a;
      } else if i > |a| {
        assert b[i - |a| - 1] in b;
      }
    }
  }

  function CreateJws<P>(s: Scheme<P>, payload: P, kid: Option<string>): string {
    var header, body := B64UrlEncode(s.header(kid)), B64UrlEncode(s.dumps(payload));
    EncodedInputIsAscii(s.header(kid), s.dumps(payload));
    var input := SigningInput(header, body);
    header + "." + body + "." + B64UrlEncode(s.sign(Ascii(input)))
  }

  function VerifyJws<P>(s: Scheme<P>, token: string): Result<P, TokenError> {
    var parts := Split(token);
    if |parts| != 3 then Err(InvalidFormat)
    else if !IsAscii(SigningInput(parts[0], parts[1])) then Err(NotAscii)
    else
      var input, signature := SigningInput(parts[0], parts[1]), B64UrlDecode(parts[2]);
      if signature.None? then Err(BadEncoding)
      else if !s.verify(signature.value, Ascii(input)) then Err(InvalidSignature)
      else
        var bytes := B64UrlDecode(parts[1]);
        if bytes.None? then Err(BadEncoding)
        else if s.loads(bytes.value).None? then Err(BadPayload)
        else Ok(s.loads(bytes.value).value)
  }

  lemma NoDots(data: seq<Byte>)
    ensures '.' !in B64UrlEncode(data)
  {
    OnlyLetters(data);
  }

  /** verify_jws splits a created token into exactly the three parts that create_jws joined. */
  lemma CreatedTokenSplits<P>(s: Scheme<P>, payload: P, kid: Option<string>)
    ensures
      var header, body := B64UrlEncode(s.header(kid)), B64UrlEncode(s.dumps(payload));
      IsAscii(SigningInput(header, body))
      && Split(CreateJws(s, payload, kid)) == [header, body, B64UrlEncode(s.sign(Ascii(SigningInput(header, body))))]
  {
    EncodedInputIsAscii(s.header(kid), s.dumps(payload));
    var header, body := B64UrlEncode(s.header(kid)), B64UrlEncode(s.dumps(payload));
    var signed := s.sign(Ascii(SigningInput(header, body)));
    NoDots(s.header(kid));
    NoDots(s.dumps(payload));
    NoDots(signed);
    hide B64UrlEncode, Ascii, IsAscii, Split;
    SplitOfThree(header, body, B64UrlEncode(signed));
  }

  lemma SplitOfThree(a: string, b: string, c: string)
    requires '.' !in a && '.' !in b && '.' !in c
    ensures Split(a + "." + b + "." + c) == [a, b, c]
  {
    SplitAtFirstDot(a, b + "." + c);
    SplitAtFirstDot(b, c);
    SplitWithoutDot(c);
    assert a + "." + b + "." + c == a + "." + (b + "." + c);
  }

  /** A created token verifies and gives its payload back. */
  lemma CreatedTokenVerifies<P(!new)>(s: Scheme<P>, payload: P, kid: Option<string>)
    requires Sound(s)
    ensures VerifyJws(s, CreateJws(s, payload, kid)) == Ok(payload)
  {
    CreatedTokenSplits(s, payload, kid);
    RoundTrip(s.dumps(payload));
    var header, body := B64UrlEncode(s.header(kid)), B64UrlEncode(s.dumps(payload));
    RoundTrip(s.sign(Ascii(SigningInput(header, body))));
  }

  /** An accepted token is its own signing input, a dot, and the text of a signature of exactly that input;
      what it returns was read from the signed text. */
  lemma AcceptedTokenSignsItself<P>(s: Scheme<P>, token: string)
    requires VerifyJws(s, token).Ok?
    ensures
      var parts := Split(token);
      && |parts| == 3
      && token == SigningInput(parts[0], parts[1]) + "." + parts[2]
      && IsAscii(SigningInput(parts[0], parts[1]))
      && B64UrlDecode(parts[1]).Some? && B64UrlDecode(parts[2]).Some?
      && s.verify(B64UrlDecode(parts[2]).value, Ascii(SigningInput(parts[0], parts[1])))
      && s.loads(B64UrlDecode(parts[1]).value) == Some(VerifyJws(s, token).value)
  {
    JoinUndoesSplit(token);
    JoinOfThree(Split(token));
  }

  /** A token has two dots, or it is refused for its format. */
  lemma TwoDotsOrInvalid<P>(s: Scheme<P>, token: string)
    ensures VerifyJws(s, token) == Err(InvalidFormat) <==> multiset(token)['.'] != 2
  {
    SplitCounts(token);
  }

  lemma {:induction false} SplitCounts(s: string)
    ensures |Split(s)| == multiset(s)['.'] + 1
  {
    if s != "" {
      assert s == [s[0]] + s[1..];
      SplitCounts(s[1..]);
    }
  }

  /** Exactly what is accepted: three parts, the last decoding to a signature of the codes of the first two with their
      dot, the middle one decoding to a payload that can be read, which is the answer. */
  lemma AcceptsIff<P>(s: Scheme<P>, token: string, payload: P)
    ensures
      var parts := Split(token);
      VerifyJws(s, token) == Ok(payload)
      <==> && |parts| == 3 && IsAscii(parts[0] + "." + parts[1])
           && B64UrlDecode(parts[1]).Some? && B64UrlDecode(parts[2]).Some?
           && s.verify(B64UrlDecode(parts[2]).value, Ascii(parts[0] + "." + parts[1]))
           && s.loads(B64UrlDecode(parts[1]).value) == Some(payload)
  {
    hide Split, B64UrlDecode, Ascii, IsAscii;
  }

  /** How a token of three parts is refused: the look at the signature comes before the look at the payload. */
  lemma RefusedInOrder<P>(s: Scheme<P>, token: string)
    requires |Split(token)| == 3
    ensures
      var parts := Split(token);
      var input, signature, body := parts[0] + "." + parts[1], B64UrlDecode(parts[2]), B64UrlDecode(parts[1]);
      && (VerifyJws(s, token) == Err(NotAscii) <==> !IsAscii(input))
      && (IsAscii(input) ==>
            var signed := signature.Some? && s.verify(signature.value, Ascii(input));
            && (VerifyJws(s, token) == Err(InvalidSignature) <==> signature.Some? && !signed)
            && (VerifyJws(s, token) == Err(BadEncoding) <==> signature.None? || (signed && body.None?))
            && (VerifyJws(s, token) == Err(BadPayload) <==> signed && body.Some? && s.loads(body.value).None?))
  {
    hide Split, B64UrlDecode, Ascii, IsAscii;
  }

  /** A signature is good for one message only. */
  ghost predicate BindsMessage<P(!new)>(s: Scheme<P>) {
    forall signature, m, n :: s.verify(signature, m) && s.verify(signature, n) ==> m == n
  }

  /** If a signature is good for one message only, then no part of an accepted token can be exchanged: two accepted
      tokens with the same signature part are the same token. */
  lemma SignatureFixesToken<P(!new)>(s: Scheme<P>, token: string, other: string)
    requires BindsMessage(s) && VerifyJws(s, token).Ok? && VerifyJws(s, other).Ok?
    requires Split(token)[2] == Split(other)[2]
    ensures token == other
  {
    AcceptedTokenSignsItself(s, token);
    AcceptedTokenSignsItself(s, other);
    var p, q := Split(token), Split(other);
    hide Split, B64UrlDecode, VerifyJws, Ascii, IsAscii;
    AsciiIsInjective(SigningInput(p[0], p[1]), SigningInput(q[0], q[1]));
  }

  lemma JoinOfThree(parts: seq<string>)
    requires |parts| == 3
    ensures Join(parts) == SigningInput(parts[0], parts[1]) + "." + parts[2]
  {
    var tail := parts[1..];
    assert tail[1..] == [parts[2]];
    assert Join(tail[1..]) == parts[2];
    assert Join(tail) == parts[1] + "." + parts[2];
  }
}
