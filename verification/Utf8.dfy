/** UTF-8 as sections 3 and 4 of RFC 3629 define it, without the NUL character. */
module Utf8 {
  import opened Bytes

  /** A Unicode scalar value other than NUL. */
  predicate IsCharacter(c: int) {
    0 < c <= 0x10ffff && !(0xd800 <= c <= 0xdfff)
  }

  /** The one sequence of octets for a character number. */
  function EncodeCharacter(c: int): (bytes: seq<byte>)
    requires 0 <= c <= 0x10ffff
    ensures 1 <= |bytes| <= 4
  {
    if c < 0x80 then [c]
    else if c < 0x800 then [0xc0 + c / 0x40, 0x80 + c % 0x40]
    else if c < 0x1_0000 then [0xe0 + c / 0x1000, 0x80 + c / 0x40 % 0x40, 0x80 + c % 0x40]
    else [0xf0 + c / 0x4_0000, 0x80 + c / 0x1000 % 0x40, 0x80 + c / 0x40 % 0x40, 0x80 + c % 0x40]
  }

  ghost predicate AreCharacters(cs: seq<int>) { forall k :: 0 <= k < |cs| ==> IsCharacter(cs[k]) }

  ghost function EncodeText(cs: seq<int>): seq<byte>
    requires AreCharacters(cs)
  {
    if cs == [] then [] else EncodeCharacter(cs[0]) + EncodeText(cs[1..])
  }

  /** `text` is made of encoded characters and nothing else. */
  ghost predicate IsText(text: seq<byte>) {
    exists cs :: AreCharacters(cs) && EncodeText(cs) == text
  }

  // ---------- one character ----------

  predicate IsContinuation(b: byte) { b / 0x40 == 2 }

  /** How many octets follow a lead octet; 0 when it stands alone or leads nothing. */
  function Trailing(lead: byte): nat {
    if lead / 0x20 == 6 then 1 else if lead / 0x10 == 14 then 2 else if lead / 8 == 30 then 3 else 0
  }

  function LeadBits(lead: byte): nat {
    if lead / 0x20 == 6 then lead % 0x20 else if lead / 0x10 == 14 then lead % 0x10 else lead % 8
  }

  function Minimum(lead: byte): nat {
    if lead / 0x20 == 6 then 0x80 else if lead / 0x10 == 14 then 0x800 else 0x1_0000
  }

  function Payload(b: byte): nat { b % 0x40 }

  /** The number made of the lead octet and the next `n` octets. */
  function CodePoint(s: seq<byte>, n: nat): nat
    requires n < |s|
  {
    if n == 0 then LeadBits(s[0]) else CodePoint(s, n - 1) * 0x40 + Payload(s[n])
  }

  /** A multi-octet character at the start of `s`. */
  predicate StartsLong(s: seq<byte>) {
    && s != [] && 0 < Trailing(s[0]) < |s|
    && (forall k :: 1 <= k <= Trailing(s[0]) ==> IsContinuation(s[k]))
    && Minimum(s[0]) <= CodePoint(s, Trailing(s[0]))
    && IsCharacter(CodePoint(s, Trailing(s[0])))
  }

  lemma {:induction false} UnfoldCodePoint(s: seq<byte>)
    requires s != [] && Trailing(s[0]) < |s|
    ensures Trailing(s[0]) == 1 ==> CodePoint(s, 1) == LeadBits(s[0]) * 0x40 + Payload(s[1])
    ensures Trailing(s[0]) == 2 ==> CodePoint(s, 2) == LeadBits(s[0]) * 0x1000 + Payload(s[1]) * 0x40 + Payload(s[2])
    ensures Trailing(s[0]) == 3 ==>
              CodePoint(s, 3) == LeadBits(s[0]) * 0x4_0000 + Payload(s[1]) * 0x1000 + Payload(s[2]) * 0x40 + Payload(s[3])
  {
    hide LeadBits;
    hide Payload;
    if Trailing(s[0]) == 3 {
      assert CodePoint(s, 2) == CodePoint(s, 1) * 0x40 + Payload(s[2]);
    }
  }

  /** Groups of six bits, put together and taken apart. */
  lemma {:induction false} SixBitGroups(top: nat, a: nat, b: nat, c: nat)
    requires a < 0x40 && b < 0x40 && c < 0x40
    ensures var v := top * 0x4_0000 + a * 0x1000 + b * 0x40 + c;
            && v / 0x4_0000 == top && v / 0x1000 % 0x40 == a && v / 0x40 % 0x40 == b && v % 0x40 == c
            && (top == 0 ==> v / 0x1000 == a) && (top == 0 && a == 0 ==> v / 0x40 == b)
  {
    var v := top * 0x4_0000 + a * 0x1000 + b * 0x40 + c;
    assert v / 0x40 == top * 0x1000 + a * 0x40 + b;
    assert v / 0x1000 == top * 0x40 + a;
  }

  lemma {:induction false} SixBitSum(c: nat)
    ensures c == c / 0x4_0000 * 0x4_0000 + c / 0x1000 % 0x40 * 0x1000 + c / 0x40 % 0x40 * 0x40 + c % 0x40
    ensures c < 0x800 ==> c == c / 0x40 * 0x40 + c % 0x40
    ensures c < 0x1_0000 ==> c == c / 0x1000 * 0x1000 + c / 0x40 % 0x40 * 0x40 + c % 0x40
  {
    assert c / 0x40 / 0x40 == c / 0x1000;
    assert c / 0x1000 / 0x40 == c / 0x4_0000;
  }

  /** Octets that lead, and octets that continue. */
  lemma {:induction false} LeadOctet(b: byte)
    ensures Trailing(b) == 1 <==> 0xc0 <= b < 0xe0
    ensures Trailing(b) == 2 <==> 0xe0 <= b < 0xf0
    ensures Trailing(b) == 3 <==> 0xf0 <= b < 0xf8
    ensures Trailing(b) == 1 ==> LeadBits(b) == b - 0xc0 && Minimum(b) == 0x80
    ensures Trailing(b) == 2 ==> LeadBits(b) == b - 0xe0 && Minimum(b) == 0x800
    ensures Trailing(b) == 3 ==> LeadBits(b) == b - 0xf0 && Minimum(b) == 0x1_0000
    ensures Trailing(b) <= 3
  {
  }

  lemma {:induction false} ContinuationOctet(b: byte)
    ensures IsContinuation(b) <==> 0x80 <= b < 0xc0
    ensures IsContinuation(b) ==> b == 0x80 + Payload(b)
    ensures Payload(b) < 0x40
  {
  }

  lemma {:induction false} TwoOctets(a: nat, b: nat)
    requires b < 0x40 && 0x80 <= a * 0x40 + b < 0x800
    ensures EncodeCharacter(a * 0x40 + b) == [0xc0 + a, 0x80 + b]
  {
    SixBitGroups(0, 0, a, b);
  }

  lemma {:induction false} ThreeOctets(a: nat, b: nat, c: nat)
    requires b < 0x40 && c < 0x40 && 0x800 <= a * 0x1000 + b * 0x40 + c < 0x1_0000
    ensures EncodeCharacter(a * 0x1000 + b * 0x40 + c) == [0xe0 + a, 0x80 + b, 0x80 + c]
  {
    SixBitGroups(0, a, b, c);
  }

  lemma {:induction false} FourOctets(a: nat, b: nat, c: nat, d: nat)
    requires b < 0x40 && c < 0x40 && d < 0x40
    requires 0x1_0000 <= a * 0x4_0000 + b * 0x1000 + c * 0x40 + d <= 0x10ffff
    ensures EncodeCharacter(a * 0x4_0000 + b * 0x1000 + c * 0x40 + d) == [0xf0 + a, 0x80 + b, 0x80 + c, 0x80 + d]
  {
    SixBitGroups(a, b, c, d);
  }

  /** What starts a long character is the encoding of its code point, in the shortest form. */
  lemma {:induction false} LongIsEncoded(s: seq<byte>)
    requires StartsLong(s)
    ensures EncodeCharacter(CodePoint(s, Trailing(s[0]))) == s[..Trailing(s[0]) + 1]
  {
    var n := Trailing(s[0]);
    UnfoldCodePoint(s);
    LeadOctet(s[0]);
    assert forall k :: 1 <= k <= n ==> IsContinuation(s[k]);
    hide Trailing;
    hide LeadBits;
    hide Minimum;
    hide Payload;
    hide IsContinuation;
    hide CodePoint;
    hide EncodeCharacter;
    ContinuationOctet(s[1]);
    if n == 1 {
      TwoOctets(LeadBits(s[0]), Payload(s[1]));
    } else if n == 2 {
      ContinuationOctet(s[2]);
      ThreeOctets(LeadBits(s[0]), Payload(s[1]), Payload(s[2]));
    } else {
      ContinuationOctet(s[2]);
      ContinuationOctet(s[3]);
      FourOctets(LeadBits(s[0]), Payload(s[1]), Payload(s[2]), Payload(s[3]));
    }
  }

  /** An encoded character is recognised, and read back as itself. */
  lemma {:induction false} EncodedIsRead(c: int, s: seq<byte>)
    requires IsCharacter(c) && EncodeCharacter(c) <= s
    ensures s[0] < 0x80 ==> c == s[0]
    ensures s[0] >= 0x80 ==>
              StartsLong(s) && c == CodePoint(s, Trailing(s[0])) && |EncodeCharacter(c)| == Trailing(s[0]) + 1
  {
    if c >= 0x80 {
      LongIsRead(c, s);
    }
  }

  lemma {:induction false} LongIsRead(c: int, s: seq<byte>)
    requires IsCharacter(c) && c >= 0x80 && EncodeCharacter(c) <= s
    ensures s[0] >= 0x80 && StartsLong(s) && c == CodePoint(s, Trailing(s[0]))
    ensures |EncodeCharacter(c)| == Trailing(s[0]) + 1
  {
    var e := EncodeCharacter(c);
    assert forall k :: 0 <= k < |e| ==> s[k] == e[k];
    SixBitSum(c);
    LeadOctet(s[0]);
    ContinuationOctet(s[1]);
    hide Trailing;
    hide LeadBits;
    hide Minimum;
    hide Payload;
    hide IsContinuation;
    UnfoldCodePoint(s);
    hide CodePoint;
    if c >= 0x800 {
      ContinuationOctet(s[2]);
    }
    if c >= 0x1_0000 {
      ContinuationOctet(s[3]);
    }
  }

  // ---------- text ----------

  lemma {:induction false} TextGrows(c: int, rest: seq<byte>)
    requires IsCharacter(c) && IsText(rest)
    ensures IsText(EncodeCharacter(c) + rest)
  {
    var cs :| AreCharacters(cs) && EncodeText(cs) == rest;
    var more := [c] + cs;
    assert more[0] == c && more[1..] == cs;
    assert AreCharacters(more) && EncodeText(more) == EncodeCharacter(c) + rest;
  }

  /** Non-empty text starts with an encoded character, and what follows is text. */
  lemma {:induction false} TextStarts(text: seq<byte>) returns (c: int)
    requires IsText(text) && text != []
    ensures IsCharacter(c) && EncodeCharacter(c) <= text && IsText(text[|EncodeCharacter(c)|..])
  {
    var cs :| AreCharacters(cs) && EncodeText(cs) == text;
    c := cs[0];
    assert AreCharacters(cs[1..]) && text[|EncodeCharacter(c)|..] == EncodeText(cs[1..]);
  }

  /** A character may be cut off the front of a text candidate. */
  lemma {:induction false} CutCharacter(c: int, s: seq<byte>)
    requires IsCharacter(c) && EncodeCharacter(c) <= s
    ensures IsText(s) <==> IsText(s[|EncodeCharacter(c)|..])
  {
    var n := |EncodeCharacter(c)|;
    if IsText(s[n..]) {
      TextGrows(c, s[n..]);
      assert s == EncodeCharacter(c) + s[n..];
    }
    if IsText(s) {
      var d := TextStarts(s);
      EncodedIsRead(c, s);
      EncodedIsRead(d, s);
    }
  }

  /** Nothing else than a character may start a text. */
  lemma {:induction false} NotText(s: seq<byte>)
    requires s != [] && (s[0] == 0 || s[0] >= 0x80) && !StartsLong(s)
    ensures !IsText(s)
  {
    if IsText(s) {
      var c := TextStarts(s);
      EncodedIsRead(c, s);
    }
  }

  method IsValidUtf8(value: seq<byte>) returns (valid: bool)
    ensures valid <==> IsText(value)
  {
    var offset := 0;
    while offset < |value|
      invariant 0 <= offset <= |value|
      invariant IsText(value) <==> IsText(value[offset..])
    {
      ghost var s := value[offset..];
      var lead := value[offset];
      if lead <= 0x7f {
        if lead == 0 {
          NotText(s);
          return false;
        }
        CutCharacter(lead, s);
        assert s[1..] == value[offset + 1..];
        offset := offset + 1;
        continue;
      }
      if Trailing(lead) == 0 || Trailing(lead) > |value| - offset - 1 {
        NotText(s);
        return false;
      }
      var trailingBytes, codePoint := Trailing(lead), LeadBits(lead);
      var index := 1;
      while index <= trailingBytes
        invariant 1 <= index <= trailingBytes + 1
        invariant codePoint == CodePoint(s, index - 1)
        invariant forall k :: 1 <= k < index ==> IsContinuation(s[k])
      {
        var continuation := value[offset + index];
        if continuation / 0x40 != 2 {
          assert !IsContinuation(s[index]);
          NotText(s);
          return false;
        }
        codePoint := codePoint * 0x40 + continuation % 0x40;
        index := index + 1;
      }
      if codePoint < Minimum(lead) || codePoint > 0x10ffff || 0xd800 <= codePoint <= 0xdfff {
        NotText(s);
        return false;
      }
      LongIsEncoded(s);
      CutCharacter(codePoint, s);
      assert s[trailingBytes + 1..] == value[offset + trailingBytes + 1..];
      offset := offset + trailingBytes + 1;
    }
    assert EncodeText([]) == value[offset..] && AreCharacters([]);
    return true;
  }
}
