/** The two ways the services cut a text to a byte limit: back to a rune start, or back until the text is valid. */
module Utf8Truncation {
  type Text = seq<bv8>

  // ----- UTF-8, RFC 3629 sections 3 and 4 ---------------------------------------------------------------------------

  /** `utf8.RuneStart` */
  predicate RuneStart(b: bv8) {
    b & 0xC0 != 0x80
  }

  predicate Tail(b: bv8) {
    0x80 <= b <= 0xBF
  }

  /** The number of bytes of the well-formed character that `s` begins with, or 0 if there is none. */
  function FirstRune(s: Text): nat {
    if s == [] then 0
    else if s[0] <= 0x7F then 1
    else if |s| < 2 || !SecondByte(s[0], s[1]) then 0
    else if s[0] <= 0xDF then 2
    else if |s| < 3 || !Tail(s[2]) then 0
    else if s[0] <= 0xEF then 3
    else if |s| < 4 || !Tail(s[3]) then 0
    else 4
  }

  /** Which second bytes a leading byte allows; it rules out overlong forms, surrogates and numbers above 10FFFF. */
  predicate SecondByte(lead: bv8, b: bv8) {
    && 0xC2 <= lead <= 0xF4 && Tail(b)
    && (lead == 0xE0 ==> 0xA0 <= b)
    && (lead == 0xED ==> b <= 0x9F)
    && (lead == 0xF0 ==> 0x90 <= b)
    && (lead == 0xF4 ==> b <= 0x8F)
  }

  /** `utf8.ValidString` */
  predicate Valid(s: Text) {
    s == [] || (FirstRune(s) > 0 && Valid(s[FirstRune(s)..]))
  }

  // What a text is, said in terms of the characters it stands for.

  /** The numbers that stand for characters: all up to 10FFFF but the surrogates. */
  predicate Scalar(c: bv32) {
    c < 0xD800 || 0xE000 <= c <= 0x10FFFF
  }

  /** The bit patterns of section 3. */
  function Encode(c: bv32): (s: Text)
    requires Scalar(c)
    ensures 1 <= |s| <= 4
  {
    if c < 0x80 then [c as bv8]
    else if c < 0x800 then [(0xC0 | (c >> 6)) as bv8, Rest(c)]
    else if c < 0x1_0000 then [(0xE0 | (c >> 12)) as bv8, Rest(c >> 6), Rest(c)]
    else [(0xF0 | (c >> 18)) as bv8, Rest(c >> 12), Rest(c >> 6), Rest(c)]
  }

  function Rest(c: bv32): bv8 {
    (0x80 | (c & 0x3F)) as bv8
  }

  /** The number that a well-formed character stands for. */
  function Decode(s: Text): bv32
    requires FirstRune(s) > 0
  {
    var n := FirstRune(s);
    if n == 1 then s[0] as bv32
    else if n == 2 then ((s[0] as bv32 & 0x1F) << 6) | (s[1] as bv32 & 0x3F)
    else if n == 3 then ((s[0] as bv32 & 0x0F) << 12) | ((s[1] as bv32 & 0x3F) << 6) | (s[2] as bv32 & 0x3F)
    else ((s[0] as bv32 & 0x07) << 18) | ((s[1] as bv32 & 0x3F) << 12) | ((s[2] as bv32 & 0x3F) << 6)
         | (s[3] as bv32 & 0x3F)
  }

  lemma {:induction false} EncodeOfDecode(s: Text)
    requires FirstRune(s) > 0
    ensures Scalar(Decode(s)) && Encode(Decode(s)) == s[..FirstRune(s)]
  {
    hide SecondByte, Tail, Encode, Scalar;
    var n := FirstRune(s);
    if n == 1 {
      assert s[..1] == [s[0]];
      OneByte(s[0]);
    } else if n == 2 {
      assert s[..2] == [s[0], s[1]];
      TwoBytes(s[0], s[1]);
    } else if n == 3 {
      assert s[..3] == [s[0], s[1], s[2]];
      ThreeBytes(s[0], s[1], s[2]);
    } else {
      assert s[..4] == [s[0], s[1], s[2], s[3]];
      FourBytes(s[0], s[1], s[2], s[3]);
    }
  }

  lemma {:induction false} OneByte(a: bv8)
    requires a <= 0x7F
    ensures var c: bv32 := a as bv32; Scalar(c) && Encode(c) == [a]
  {
  }

  lemma {:induction false} TwoBytes(a: bv8, b: bv8)
    requires SecondByte(a, b) && a <= 0xDF
    ensures var c: bv32 := ((a as bv32 & 0x1F) << 6) | (b as bv32 & 0x3F);
            Scalar(c) && Encode(c) == [a, b]
  {
  }

  lemma {:induction false} ThreeBytes(a: bv8, b: bv8, d: bv8)
    requires SecondByte(a, b) && Tail(d) && 0xDF < a <= 0xEF
    ensures var c: bv32 := ((a as bv32 & 0x0F) << 12) | ((b as bv32 & 0x3F) << 6) | (d as bv32 & 0x3F);
            Scalar(c) && Encode(c) == [a, b, d]
  {
    hide SecondByte, Tail;
    ThreeBits(a, b, d);
  }

  lemma {:induction false} ThreeBits(a: bv8, b: bv8, d: bv8)
    requires SecondByte(a, b) && Tail(d) && 0xDF < a <= 0xEF
    ensures var c: bv32 := ((a as bv32 & 0x0F) << 12) | ((b as bv32 & 0x3F) << 6) | (d as bv32 & 0x3F);
            && (0x800 <= c < 0xD800 || 0xE000 <= c < 0x1_0000)
            && 0xE0 | (c >> 12) == a as bv32 && Rest(c >> 6) == b && Rest(c) == d
  {
  }

  lemma {:induction false} FourBytes(a: bv8, b: bv8, d: bv8, e: bv8)
    requires SecondByte(a, b) && Tail(d) && Tail(e) && 0xEF < a
    ensures var c: bv32 := ((a as bv32 & 0x07) << 18) | ((b as bv32 & 0x3F) << 12) | ((d as bv32 & 0x3F) << 6)
                           | (e as bv32 & 0x3F);
            Scalar(c) && Encode(c) == [a, b, d, e]
  {
    hide SecondByte, Tail;
    FourBits(a, b, d, e);
  }

  lemma {:induction false} FourBits(a: bv8, b: bv8, d: bv8, e: bv8)
    requires SecondByte(a, b) && Tail(d) && Tail(e) && 0xEF < a
    ensures var c: bv32 := ((a as bv32 & 0x07) << 18) | ((b as bv32 & 0x3F) << 12) | ((d as bv32 & 0x3F) << 6)
                           | (e as bv32 & 0x3F);
            && 0x1_0000 <= c <= 0x10FFFF
            && 0xF0 | (c >> 18) == a as bv32 && Rest(c >> 12) == b && Rest(c >> 6) == d && Rest(c) == e
  {
  }

  lemma {:induction false} RuneOfEncode(c: bv32, s: Text)
    requires Scalar(c) && Encode(c) <= s
    ensures FirstRune(s) == |Encode(c)|
  {
  }

  function EncodeAll(cs: seq<bv32>): Text
    requires forall c | c in cs :: Scalar(c)
  {
    if cs == [] then [] else Encode(cs[0]) + EncodeAll(cs[1..])
  }

  /** Valid are exactly the encodings of sequences of characters. */
  lemma {:induction false} ValidIffEncoded(s: Text)
    ensures Valid(s) <==> exists cs: seq<bv32> :: (forall c | c in cs :: Scalar(c)) && EncodeAll(cs) == s
  {
    hide FirstRune, Encode, Decode, Scalar;
    if Valid(s) {
      var cs := Characters(s);
    }
    if cs: seq<bv32> :| (forall c | c in cs :: Scalar(c)) && EncodeAll(cs) == s {
      EncodedIsValid(cs);
    }
  }

  lemma {:induction false} Characters(s: Text) returns (cs: seq<bv32>)
    requires Valid(s)
    ensures (forall c | c in cs :: Scalar(c)) && EncodeAll(cs) == s
  {
    hide FirstRune, Encode, Decode, Scalar;
    cs := [];
    if s != [] {
      RuneShape(s);
      EncodeOfDecode(s);
      cs := Characters(s[FirstRune(s)..]);
      cs := [Decode(s)] + cs;
    }
  }

  lemma {:induction false} EncodedIsValid(cs: seq<bv32>)
    requires forall c | c in cs :: Scalar(c)
    ensures Valid(EncodeAll(cs))
  {
    hide FirstRune, Encode, Scalar;
    if cs != [] {
      EncodedIsValid(cs[1..]);
      RuneOfEncode(cs[0], EncodeAll(cs));
      assert EncodeAll(cs)[|Encode(cs[0])|..] == EncodeAll(cs[1..]);
    }
  }

  lemma {:induction false} RuneShape(s: Text)
    requires FirstRune(s) > 0
    ensures FirstRune(s) <= 4 && FirstRune(s) <= |s|
    ensures RuneStart(s[0])
    ensures forall k | 1 <= k < FirstRune(s) :: !RuneStart(s[k])
  {
    assert forall b: bv8 :: Tail(b) <==> !RuneStart(b);
  }

  lemma {:induction false} RuneOfPrefix(s: Text, k: nat)
    requires FirstRune(s) > 0 && 0 < k <= |s|
    ensures FirstRune(s[..k]) == if FirstRune(s) <= k then FirstRune(s) else 0
  {
  }

  /** A prefix of a valid text is valid exactly when it ends where a character starts. */
  lemma {:induction false} ValidPrefix(s: Text, k: nat)
    requires Valid(s) && k <= |s|
    ensures Valid(s[..k]) <==> k == |s| || RuneStart(s[k])
  {
    hide FirstRune, RuneStart;
    if k == |s| {
      assert s[..k] == s;
    } else {
      var n := FirstRune(s);
      RuneShape(s);
      if k > 0 {
        RuneOfPrefix(s, k);
        if n <= k {
          ValidPrefix(s[n..], k - n);
          assert s[..k][n..] == s[n..][..k - n];
        }
      }
    }
  }

  /** In a valid text a character starts at one of any four positions in a row. */
  lemma {:induction false} StartsAreClose(s: Text, k: nat)
    requires Valid(s) && k < |s|
    ensures exists j :: 0 <= j <= k && k <= j + 3 && RuneStart(s[j])
  {
    hide FirstRune, RuneStart;
    var n := FirstRune(s);
    RuneShape(s);
    if k >= n {
      StartsAreClose(s[n..], k - n);
      var j :| 0 <= j <= k - n <= j + 3 && RuneStart(s[n..][j]);
      assert s[n + j] == s[n..][j];
    }
  }

  // ----- The two truncators -----------------------------------------------------------------------------------------

  /** What the step-back loop leaves: it stops at the last rune start within the limit, or at nothing. */
  ghost predicate SteppedBack(text: Text, limit: nat, r: Text) {
    if |text| <= limit then r == text
    else
      && |r| <= limit && r == text[..|r|]
      && (|r| == 0 || RuneStart(text[|r|]))
      && forall j | |r| < j <= limit :: !RuneStart(text[j])
  }

  /** What the trimming loop leaves: the first valid text met while dropping bytes from the end. */
  ghost predicate Trimmed(text: Text, limit: nat, r: Text) {
    if |text| <= limit then r == text
    else
      && |r| <= limit && r == text[..|r|]
      && Valid(r)
      && forall j | |r| < j <= limit :: !Valid(text[..j])
  }

  /** The feed service's truncator. */
  method StepBack(text: Text, limit: nat) returns (r: Text)
    ensures SteppedBack(text, limit, r)
  {
    if |text| <= limit {
      return text;
    }
    var at := limit;
    while at > 0 && !RuneStart(text[at])
      invariant 0 <= at <= limit
      invariant forall j | at < j <= limit :: !RuneStart(text[j])
    {
      at := at - 1;
    }
    r := text[..at];
  }

  /** The library service's truncator. */
  method TrimBack(text: Text, limit: nat) returns (r: Text)
    ensures Trimmed(text, limit, r)
  {
    if |text| <= limit {
      return text;
    }
    r := text[..limit];
    while |r| > 0 && !Valid(r)
      invariant |r| <= limit && r == text[..|r|]
      invariant forall j | |r| < j <= limit :: !Valid(text[..j])
    {
      r := r[..|r| - 1];
    }
  }

  // ----- What they promise ------------------------------------------------------------------------------------------

  /** The last rune start within the limit. */
  function LastStart(text: Text, limit: nat): (at: nat)
    requires limit < |text|
    ensures at <= limit
  {
    if limit == 0 || RuneStart(text[limit]) then limit else LastStart(text, limit - 1)
  }

  /**
   When both cut at the same place: what comes before the last rune start is valid, and no character from there on fits
   within the limit.
   */
  predicate CutAlike(text: Text, limit: nat) {
    |text| <= limit ||
    var at := LastStart(text, limit);
    Valid(text[..at]) && !(0 < FirstRune(text[at..]) <= limit - at)
  }

  lemma {:induction false} StepsBackToLastStart(text: Text, limit: nat, a: Text)
    requires |text| > limit && SteppedBack(text, limit, a)
    ensures |a| == LastStart(text, limit)
  {
    if |a| < limit {
      StepsBackToLastStart(text, limit - 1, a);
    }
  }

  lemma {:induction false} ValidTogether(p: Text, q: Text)
    requires Valid(p)
    ensures Valid(p + q) <==> Valid(q)
  {
    hide FirstRune, RuneStart;
    if p == [] {
      assert p + q == q;
    } else {
      var n := FirstRune(p);
      RuneShape(p);
      RuneGoesOn(p, q);
      assert (p + q)[n..] == p[n..] + q;
      ValidTogether(p[n..], q);
    }
  }

  lemma {:induction false} RuneGoesOn(p: Text, q: Text)
    requires FirstRune(p) > 0
    ensures FirstRune(p + q) == FirstRune(p)
  {
  }

  /** Without a further rune start, a valid text is a single character. */
  lemma {:induction false} OneRuneAtMost(s: Text)
    requires s != [] && forall k | 0 < k < |s| :: !RuneStart(s[k])
    ensures Valid(s) <==> FirstRune(s) == |s|
  {
    hide FirstRune, RuneStart;
    var n := FirstRune(s);
    if n > 0 {
      RuneShape(s);
      if n < |s| {
        var rest := s[n..];
        assert rest[0] == s[n];
        if FirstRune(rest) > 0 {
          RuneShape(rest);
        }
      }
    }
  }

  lemma {:induction false} RuneFits(s: Text, k: nat)
    requires 0 < k <= |s|
    ensures FirstRune(s[..k]) == k <==> FirstRune(s) == k
  {
  }

  /** Behind the last rune start a valid prefix ends exactly where that character ends. */
  lemma {:induction false} ValidBeyond(text: Text, limit: nat, at: nat, j: nat)
    requires at < j <= limit < |text| && Valid(text[..at]) && forall k | at < k <= limit :: !RuneStart(text[k])
    ensures Valid(text[..j]) <==> FirstRune(text[at..]) == j - at
  {
    hide FirstRune, RuneStart, Valid;
    var s := text[at..j];
    assert text[..j] == text[..at] + s;
    ValidTogether(text[..at], s);
    forall k | 0 < k < |s| ensures !RuneStart(s[k]) {
      assert s[k] == text[at + k];
    }
    OneRuneAtMost(s);
    assert text[at..][..j - at] == s;
    RuneFits(text[at..], j - at);
  }

  /** On every text, valid or not, both leave the same exactly under that condition. */
  lemma {:induction false} AgreeIffCutAlike(text: Text, limit: nat, a: Text, b: Text)
    requires SteppedBack(text, limit, a) && Trimmed(text, limit, b)
    ensures a == b <==> CutAlike(text, limit)
  {
    hide FirstRune, RuneStart, Valid;
    if |text| > limit {
      var at := |a|;
      StepsBackToLastStart(text, limit, a);
      var n := FirstRune(text[at..]);
      if Valid(a) && 0 < n <= limit - at {
        ValidBeyond(text, limit, at, at + n);
      }
      if Valid(a) && at < |b| {
        ValidBeyond(text, limit, at, |b|);
      }
    }
  }

  /** The longest prefix of `text` that is valid and within the limit. */
  ghost predicate LongestValidPrefix(text: Text, limit: nat, r: Text) {
    && r <= text && |r| <= limit && Valid(r)
    && forall q: Text | q <= text && |q| <= limit && Valid(q) :: |q| <= |r|
  }

  lemma {:induction false} TrimsToLongest(text: Text, limit: nat, b: Text)
    requires Valid(text) && Trimmed(text, limit, b)
    ensures LongestValidPrefix(text, limit, b)
  {
    forall q: Text | q <= text && |q| <= limit && Valid(q) ensures |q| <= |b| {
      assert q == text[..|q|];
    }
    assert b <= text;
  }

  lemma {:induction false} ValidIsCutAlike(text: Text, limit: nat, a: Text)
    requires Valid(text) && SteppedBack(text, limit, a)
    ensures CutAlike(text, limit) && (|text| > limit ==> limit <= |a| + 3)
  {
    hide FirstRune, RuneStart;
    if |text| > limit {
      var at := |a|;
      StepsBackToLastStart(text, limit, a);
      ValidPrefix(text, at);
      assert Valid(text[..at]) by {
        assert text[..0] == [];
      }
      var n := FirstRune(text[at..]);
      if 0 < n <= limit - at {
        ValidBeyond(text, limit, at, at + n);
        ValidPrefix(text, at + n);
      }
      StartsAreClose(text, limit);
    }
  }

  /** On every valid text both cut to the longest valid prefix within the limit, losing at most three bytes of it. */
  lemma {:induction false} TruncatorsAgree(text: Text, limit: nat, a: Text, b: Text)
    requires Valid(text) && SteppedBack(text, limit, a) && Trimmed(text, limit, b)
    ensures a == b && LongestValidPrefix(text, limit, a)
    ensures |text| > limit ==> limit <= |a| + 3
  {
    hide Valid, SteppedBack, Trimmed, CutAlike;
    ValidIsCutAlike(text, limit, a);
    AgreeIffCutAlike(text, limit, a, b);
    TrimsToLongest(text, limit, b);
  }

  /** Some invalid texts are cut differently: a stray continuation byte stops one loop and not the other. */
  lemma {:induction false} DifferOnInvalidText()
    ensures exists text: Text, a: Text, b: Text :: SteppedBack(text, 1, a) && Trimmed(text, 1, b) && a != b
  {
    var text: Text := [0x41, 0x80];
    var at := LastStart(text, 1);
    assert at == LastStart(text, 0) == 0 && text[at..] == text && FirstRune(text) == 1;
    assert !CutAlike(text, 1);
    assert text[..1] == [0x41] && text[..1][1..] == [];
    assert Valid(text[..1]);
    assert SteppedBack(text, 1, []) && Trimmed(text, 1, text[..1]);
    AgreeIffCutAlike(text, 1, [], text[..1]);
  }
}
