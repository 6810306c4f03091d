/**
 Encoding and decoding of the five predefined entities (sax/enc.py, section 4.6 of XML 1.0):
 passes over the whole string, one entity at a time, that behave as one.
 */
module EntityEncoder {

  type Index = i: int | 0 <= i < 5

  /** The entities, in the order in which they are decoded. */
  function Entity(i: Index): (e: string)
    ensures |e| >= 4 && e[0] == '&' && e[|e| - 1] == ';' && forall k :: 0 < k < |e| ==> e[k] !in "&<>\"'"
  {
    ["&lt;", "&gt;", "&quot;", "&apos;", "&amp;"][i]
  }

  function Special(i: Index): char {
    ['<', '>', '"', '\'', '&'][i]
  }

  predicate StartsWith(s: string, prefix: string) {
    |prefix| <= |s| && s[..|prefix|] == prefix
  }

  /** Whether an entity stands at the start. */
  predicate HasEntity(s: string) {
    exists i: Index :: StartsWith(s, Entity(i))
  }

  // ----- the passes -----

  /** An ampersand is replaced unless it starts an entity. */
  function EncodeAmpersands(s: string): string {
    if s == "" then ""
    else (if s[0] == '&' && !HasEntity(s) then Entity(4) else [s[0]]) + EncodeAmpersands(s[1..])
  }

  function ReplaceChar(s: string, c: char, to: string): string {
    if s == "" then "" else (if s[0] == c then to else [s[0]]) + ReplaceChar(s[1..], c, to)
  }

  /** Replacing from left to right; what has been replaced is not looked at again. */
  function ReplaceAll(s: string, what: string, to: char): string
    requires what != ""
    decreases |s|
  {
    if s == "" then ""
    else if StartsWith(s, what) then [to] + ReplaceAll(s[|what|..], what, to)
    else [s[0]] + ReplaceAll(s[1..], what, to)
  }

  /** Ampersands first, then the other special characters. */
  function EncodePass(s: string, n: Index): string {
    if n == 0 then EncodeAmpersands(s) else ReplaceChar(s, Special(n - 1), Entity(n - 1))
  }

  function EncodePasses(s: string, n: nat): string
    requires n <= 5
  {
    if n == 0 then s else EncodePass(EncodePasses(s, n - 1), n - 1)
  }

  function DecodePasses(s: string, n: nat): string
    requires n <= 5
  {
    if n == 0 then s else ReplaceAll(DecodePasses(s, n - 1), Entity(n - 1), Special(n - 1))
  }

  // ----- one pass -----

  predicate IsSpecial(c: char) {
    c in "&<>\"'"
  }

  function IndexOfSpecial(c: char): (i: Index)
    requires IsSpecial(c)
    ensures Special(i) == c
  {
    if c == '<' then 0 else if c == '>' then 1 else if c == '"' then 2 else if c == '\'' then 3 else 4
  }

  function EntityAt(s: string): (i: Index)
    requires HasEntity(s)
    ensures StartsWith(s, Entity(i))
  {
    if StartsWith(s, Entity(0)) then 0 else if StartsWith(s, Entity(1)) then 1
    else if StartsWith(s, Entity(2)) then 2 else if StartsWith(s, Entity(3)) then 3 else 4
  }

  function Encoded(s: string): string
    decreases |s|
  {
    if s == "" then ""
    else if HasEntity(s) then Entity(EntityAt(s)) + Encoded(s[|Entity(EntityAt(s))|..])
    else (if IsSpecial(s[0]) then Entity(IndexOfSpecial(s[0])) else [s[0]]) + Encoded(s[1..])
  }

  function Decoded(s: string): string
    decreases |s|
  {
    if s == "" then ""
    else if HasEntity(s) then [Special(EntityAt(s))] + Decoded(s[|Entity(EntityAt(s))|..])
    else [s[0]] + Decoded(s[1..])
  }

  /** Whether an entity stands anywhere. */
  predicate ContainsEntity(s: string) {
    s != "" && (HasEntity(s) || ContainsEntity(s[1..]))
  }

  lemma OnlyOneEntity(i: Index, j: Index, rest: string)
    ensures StartsWith(Entity(i) + rest, Entity(j)) <==> i == j
    ensures HasEntity(Entity(i) + rest) && EntityAt(Entity(i) + rest) == i
    ensures (Entity(i) + rest)[|Entity(i)|..] == rest
  {
    assert StartsWith(Entity(i) + rest, Entity(i));
    var t := Entity(i) + rest;
    forall k: Index | StartsWith(t, Entity(k)) ensures k == i {
      assert t[1] == Entity(i)[1] == Entity(k)[1] && t[2] == Entity(i)[2] == Entity(k)[2];
    }
  }

  lemma EntityAndRest(s: string)
    requires HasEntity(s)
    ensures s == Entity(EntityAt(s)) + s[|Entity(EntityAt(s))|..]
  {
    var e := Entity(EntityAt(s));
    assert s[..|e|] == e && s == s[..|e|] + s[|e|..];
  }

  lemma NoEntityWithoutAmpersand(s: string)
    requires s != "" && s[0] != '&'
    ensures !HasEntity(s)
  {
  }

  // ----- the laws, for one pass -----

  lemma {:induction false} EncodedTwice(s: string)
    ensures Encoded(Encoded(s)) == Encoded(s)
    decreases |s|
  {
    if s != "" {
      if HasEntity(s) {
        var i := EntityAt(s);
        EncodedTwice(s[|Entity(i)|..]);
        OnlyOneEntity(i, i, Encoded(s[|Entity(i)|..]));
      } else {
        EncodedTwice(s[1..]);
        var rest := Encoded(s[1..]);
        if IsSpecial(s[0]) {
          OnlyOneEntity(IndexOfSpecial(s[0]), 0, rest);
        } else {
          NoEntityWithoutAmpersand([s[0]] + rest);
          assert ([s[0]] + rest)[1..] == rest;
        }
      }
    }
  }

  lemma {:induction false} DecodedEncoded(s: string)
    ensures Decoded(Encoded(s)) == Decoded(s)
    decreases |s|
  {
    if s != "" {
      if HasEntity(s) {
        var i := EntityAt(s);
        DecodedEncoded(s[|Entity(i)|..]);
        OnlyOneEntity(i, i, Encoded(s[|Entity(i)|..]));
      } else {
        DecodedEncoded(s[1..]);
        var rest := Encoded(s[1..]);
        if IsSpecial(s[0]) {
          OnlyOneEntity(IndexOfSpecial(s[0]), 0, rest);
        } else {
          NoEntityWithoutAmpersand([s[0]] + rest);
          assert ([s[0]] + rest)[1..] == rest;
        }
      }
    }
  }

  lemma {:induction false} DecodedLength(s: string)
    ensures |Decoded(s)| <= |s| && (ContainsEntity(s) ==> |Decoded(s)| < |s|)
            && (!ContainsEntity(s) ==> Decoded(s) == s)
    decreases |s|
  {
    if s != "" {
      if HasEntity(s) {
        var rest := s[|Entity(EntityAt(s))|..];
        DecodedLength(rest);
        assert |Decoded(s)| == 1 + |Decoded(rest)| && |rest| + 4 <= |s|;
      } else {
        DecodedLength(s[1..]);
        assert Decoded(s) == [s[0]] + Decoded(s[1..]) && s == [s[0]] + s[1..];
      }
    }
  }

  // ----- five passes are one: decoding -----

  lemma {:induction false} DecodePassesChar(c: char, rest: string, n: nat)
    requires n <= 5 && c != '&'
    ensures DecodePasses([c] + rest, n) == [c] + DecodePasses(rest, n)
  {
    if n > 0 {
      DecodePassesChar(c, rest, n - 1);
      var t := [c] + DecodePasses(rest, n - 1);
      assert !StartsWith(t, Entity(n - 1)) && t[1..] == DecodePasses(rest, n - 1);
    }
  }

  lemma {:induction false} ReplaceSkips(block: string, rest: string, what: string, to: char)
    requires what != "" && what[0] == '&' && forall k :: 0 <= k < |block| ==> block[k] != '&'
    ensures ReplaceAll(block + rest, what, to) == block + ReplaceAll(rest, what, to)
    decreases block
  {
    if block == "" {
      assert block + rest == rest;
    } else {
      assert (block + rest)[0] == block[0] && (block + rest)[1..] == block[1..] + rest;
      assert !StartsWith(block + rest, what);
      ReplaceSkips(block[1..], rest, what, to);
    }
  }

  lemma {:induction false} ReplaceSkipsEntity(j: Index, i: Index, rest: string)
    requires i != j
    ensures ReplaceAll(Entity(j) + rest, Entity(i), Special(i)) == Entity(j) + ReplaceAll(rest, Entity(i), Special(i))
  {
    OnlyOneEntity(j, i, rest);
    ReplaceSkipsFirst(Entity(j), rest, Entity(i), Special(i));
  }

  lemma {:induction false} ReplaceSkipsFirst(e: string, rest: string, what: string, to: char)
    requires e != "" && what != "" && what[0] == '&' && !StartsWith(e + rest, what)
             && forall k :: 0 < k < |e| ==> e[k] != '&'
    ensures ReplaceAll(e + rest, what, to) == e + ReplaceAll(rest, what, to)
  {
    assert (e + rest)[1..] == e[1..] + rest && e == [e[0]] + e[1..];
    ReplaceSkips(e[1..], rest, what, to);
  }

  lemma {:induction false} DecodePassesEntity(j: Index, rest: string, n: nat)
    requires n <= 5
    ensures DecodePasses(Entity(j) + rest, n) == (if j < n then [Special(j)] else Entity(j)) + DecodePasses(rest, n)
  {
    if n > 0 {
      DecodePassesEntity(j, rest, n - 1);
      var before := DecodePasses(rest, n - 1);
      if j < n - 1 {
        var t := [Special(j)] + before;
        assert t[0] != '&' && t[1..] == before && !StartsWith(t, Entity(n - 1));
      } else if j == n - 1 {
        OnlyOneEntity(j, j, before);
      } else {
        ReplaceSkipsEntity(j, n - 1, before);
      }
    }
  }

  /** Letters that a replacement leaves at the start were there before. */
  lemma {:induction false} StartBeforeReplace(s: string, w: string, i: Index)
    requires StartsWith(ReplaceAll(s, Entity(i), Special(i)), w) && forall k :: 0 <= k < |w| ==> !IsSpecial(w[k])
    ensures StartsWith(s, w)
    decreases w
  {
    if w != "" {
      var r := ReplaceAll(s, Entity(i), Special(i));
      assert r[0] == w[0];
      assert StartsWith(r[1..], w[1..]) by {
        assert r[1..][..|w| - 1] == r[..|w|][1..];
      }
      StartBeforeReplace(s[1..], w[1..], i);
      assert s[..|w|] == [s[0]] + s[1..][..|w| - 1];
    }
  }

  lemma {:induction false} StartBeforePasses(s: string, w: string, n: nat)
    requires n <= 5 && StartsWith(DecodePasses(s, n), w) && forall k :: 0 <= k < |w| ==> !IsSpecial(w[k])
    ensures StartsWith(s, w)
  {
    if n > 0 {
      StartBeforeReplace(DecodePasses(s, n - 1), w, n - 1);
      StartBeforePasses(s, w, n - 1);
    }
  }

  lemma {:induction false} DecodePassesAmpersand(rest: string, n: nat)
    requires n <= 5 && !HasEntity("&" + rest)
    ensures DecodePasses("&" + rest, n) == "&" + DecodePasses(rest, n)
  {
    if n > 0 {
      DecodePassesAmpersand(rest, n - 1);
      var before := DecodePasses(rest, n - 1);
      var t, e := "&" + before, Entity(n - 1);
      assert t[1..] == before;
      if StartsWith(t, e) {
        EntityWasThere(rest, n - 1, n - 1);
      }
    }
  }

  /** Decoding does not put together what an ampersand needs to start an entity. */
  lemma {:induction false} EntityWasThere(rest: string, n: nat, i: Index)
    requires n <= 5 && StartsWith("&" + DecodePasses(rest, n), Entity(i))
    ensures StartsWith("&" + rest, Entity(i))
  {
    var after, e := DecodePasses(rest, n), Entity(i);
    var t := "&" + after;
    assert StartsWith(after, e[1..]) by {
      assert t[1..] == after && t[..|e|][1..] == t[1..][..|e| - 1];
    }
    StartBeforePasses(rest, e[1..], n);
    assert ("&" + rest)[..|e|] == "&" + rest[..|e| - 1];
    assert "&" + e[1..] == e;
  }

  lemma {:induction false} FivePassesDecode(s: string)
    ensures DecodePasses(s, 5) == Decoded(s)
    decreases |s|
  {
    if s == "" {
      DecodePassesNothing(5);
    } else if HasEntity(s) {
      var i := EntityAt(s);
      var rest := s[|Entity(i)|..];
      EntityAndRest(s);
      FivePassesDecode(rest);
      DecodePassesEntity(i, rest, 5);
    } else {
      assert s == [s[0]] + s[1..];
      FivePassesDecode(s[1..]);
      if s[0] == '&' {
        DecodePassesAmpersand(s[1..], 5);
      } else {
        DecodePassesChar(s[0], s[1..], 5);
      }
    }
  }

  lemma {:induction false} DecodePassesNothing(n: nat)
    requires n <= 5
    ensures DecodePasses("", n) == ""
  {
    if n > 0 {
      DecodePassesNothing(n - 1);
    }
  }

  // ----- five passes are one: encoding -----

  lemma {:induction false} EncodeAmpersandsSkips(block: string, rest: string)
    requires forall k :: 0 <= k < |block| ==> block[k] != '&'
    ensures EncodeAmpersands(block + rest) == block + EncodeAmpersands(rest)
    decreases block
  {
    if block == "" {
      assert block + rest == rest;
    } else {
      assert (block + rest)[0] == block[0] && (block + rest)[1..] == block[1..] + rest;
      EncodeAmpersandsSkips(block[1..], rest);
    }
  }

  lemma {:induction false} ReplaceCharInTurn(first: string, second: string, c: char, to: string)
    ensures ReplaceChar(first + second, c, to) == ReplaceChar(first, c, to) + ReplaceChar(second, c, to)
    decreases first
  {
    if first == "" {
      assert first + second == second;
    } else {
      assert (first + second)[0] == first[0] && (first + second)[1..] == first[1..] + second;
      ReplaceCharInTurn(first[1..], second, c, to);
    }
  }

  lemma {:induction false} ReplaceCharLeaves(s: string, c: char, to: string)
    requires forall k :: 0 <= k < |s| ==> s[k] != c
    ensures ReplaceChar(s, c, to) == s
  {
    if s != "" {
      ReplaceCharLeaves(s[1..], c, to);
    }
  }

  /** What passes after the first make of one piece of the string. */
  lemma {:induction false} LaterPassesEntity(i: Index, rest: string, n: nat)
    requires 1 <= n <= 5
    ensures LaterPasses(Entity(i) + rest, n) == Entity(i) + LaterPasses(rest, n)
  {
    if n > 1 {
      LaterPassesEntity(i, rest, n - 1);
      EntityStays(i, LaterPasses(rest, n - 1), n - 2);
    }
  }

  /** No entity holds a special character other than the ampersand. */
  lemma {:induction false} EntityStays(i: Index, rest: string, k: nat)
    requires k < 4
    ensures ReplaceChar(Entity(i) + rest, Special(k), Entity(k)) == Entity(i) + ReplaceChar(rest, Special(k), Entity(k))
  {
    ReplaceCharInTurn(Entity(i), rest, Special(k), Entity(k));
    ReplaceCharLeaves(Entity(i), Special(k), Entity(k));
  }

  /** The passes after the first. */
  function LaterPasses(s: string, n: nat): string
    requires 1 <= n <= 5
  {
    if n == 1 then s else ReplaceChar(LaterPasses(s, n - 1), Special(n - 2), Entity(n - 2))
  }

  lemma {:induction false} PassesAreFirstAndLater(s: string, n: nat)
    requires 1 <= n <= 5
    ensures EncodePasses(s, n) == LaterPasses(EncodeAmpersands(s), n)
  {
    if n > 1 {
      PassesAreFirstAndLater(s, n - 1);
    } else {
      assert EncodePasses(s, 0) == s;
    }
  }

  lemma {:induction false} LaterPassesChar(c: char, rest: string, n: nat)
    requires 1 <= n <= 5 && c != '&'
    ensures LaterPasses([c] + rest, n)
            == (if IsSpecial(c) && IndexOfSpecial(c) < n - 1 then Entity(IndexOfSpecial(c)) else [c])
              + LaterPasses(rest, n)
  {
    if n > 1 {
      LaterPassesChar(c, rest, n - 1);
      var piece := if IsSpecial(c) && IndexOfSpecial(c) < n - 2 then Entity(IndexOfSpecial(c)) else [c];
      ReplaceCharInTurn(piece, LaterPasses(rest, n - 1), Special(n - 2), Entity(n - 2));
      if piece == [c] && c == Special(n - 2) {
        assert piece[1..] == "" && Entity(n - 2) + "" == Entity(n - 2);
      } else {
        ReplaceCharLeaves(piece, Special(n - 2), Entity(n - 2));
      }
    }
  }

  lemma {:induction false} FirstPassEntity(i: Index, rest: string)
    ensures EncodeAmpersands(Entity(i) + rest) == Entity(i) + EncodeAmpersands(rest)
  {
    OnlyOneEntity(i, i, rest);
    EncodeAmpersandsSkipsFirst(Entity(i), rest);
  }

  lemma {:induction false} EncodeAmpersandsSkipsFirst(e: string, rest: string)
    requires e != "" && HasEntity(e + rest) && forall k :: 0 < k < |e| ==> e[k] != '&'
    ensures EncodeAmpersands(e + rest) == e + EncodeAmpersands(rest)
  {
    assert (e + rest)[1..] == e[1..] + rest && e == [e[0]] + e[1..];
    EncodeAmpersandsSkips(e[1..], rest);
  }

  lemma {:induction false} FivePassesEncode(s: string)
    ensures EncodePasses(s, 5) == Encoded(s)
    decreases |s|
  {
    if s == "" {
      PassesAreFirstAndLater(s, 5);
      LaterPassesNothing(5);
    } else if HasEntity(s) {
      var i := EntityAt(s);
      FivePassesEncode(s[|Entity(i)|..]);
      FivePassesKeepEntity(s, i);
    } else {
      FivePassesEncode(s[1..]);
      FivePassesEncodeChar(s);
    }
  }

  lemma {:induction false} FivePassesKeepEntity(s: string, i: Index)
    requires HasEntity(s) && i == EntityAt(s)
    ensures EncodePasses(s, 5) == Entity(i) + EncodePasses(s[|Entity(i)|..], 5)
  {
    var rest := s[|Entity(i)|..];
    EntityAndRest(s);
    PassesAreFirstAndLater(s, 5);
    FirstPassEntity(i, rest);
    LaterPassesEntity(i, EncodeAmpersands(rest), 5);
    PassesAreFirstAndLater(rest, 5);
  }

  lemma {:induction false} FivePassesEncodeChar(s: string)
    requires s != "" && !HasEntity(s)
    ensures EncodePasses(s, 5) == (if IsSpecial(s[0]) then Entity(IndexOfSpecial(s[0])) else [s[0]])
            + EncodePasses(s[1..], 5)
  {
    PassesAreFirstAndLater(s, 5);
    PassesAreFirstAndLater(s[1..], 5);
    if s[0] == '&' {
      LaterPassesEntity(4, EncodeAmpersands(s[1..]), 5);
    } else {
      LaterPassesChar(s[0], EncodeAmpersands(s[1..]), 5);
    }
  }

  lemma {:induction false} LaterPassesNothing(n: nat)
    requires 1 <= n <= 5
    ensures LaterPasses("", n) == ""
  {
    if n > 1 {
      LaterPassesNothing(n - 1);
    }
  }

  // ----- the operations -----

  predicate NeedsEncoding(s: string) {
    exists k :: 0 <= k < |s| && IsSpecial(s[k])
  }

  method Encode(text: string) returns (s: string)
    ensures s == EncodePasses(text, 5) == Encoded(text)
  {
    s := text;
    if NeedsEncoding(s) {
      for i := 0 to 5
        invariant s == EncodePasses(text, i)
      {
        s := EncodePass(s, i);
      }
    } else {
      NothingToEncode(text);
    }
    FivePassesEncode(text);
  }

  method Decode(text: string) returns (s: string)
    ensures s == DecodePasses(text, 5) == Decoded(text)
  {
    s := text;
    if '&' in s {
      for i := 0 to 5
        invariant s == DecodePasses(text, i)
      {
        s := ReplaceAll(s, Entity(i), Special(i));
      }
    } else {
      NothingToDecode(text);
    }
    FivePassesDecode(text);
  }

  lemma {:induction false} NothingToEncode(s: string)
    requires !NeedsEncoding(s)
    ensures Encoded(s) == s
  {
    if s != "" {
      NothingToEncode(s[1..]);
    }
  }

  lemma {:induction false} NothingToDecode(s: string)
    requires '&' !in s
    ensures Decoded(s) == s
  {
    if s != "" {
      NothingToDecode(s[1..]);
    }
  }

  // ----- the laws -----

  /** The five characters and what stands for them (section 4.6 of XML 1.0). */
  datatype Pair = Pair(special: char, entity: string)

  const PAIRS := [Pair('&', "&amp;"), Pair('<', "&lt;"), Pair('>', "&gt;"), Pair('"', "&quot;"), Pair('\'', "&apos;")]

  function IndexOfPair(k: nat): Index
    requires k < 5
  {
    (k + 4) % 5
  }

  /** Each entity is kept by encoding, and decoding makes its character of it. */
  lemma EntitiesAreRead(k: nat, rest: string)
    requires k < 5
    ensures EncodePasses(PAIRS[k].entity + rest, 5) == PAIRS[k].entity + EncodePasses(rest, 5)
    ensures DecodePasses(PAIRS[k].entity + rest, 5) == [PAIRS[k].special] + DecodePasses(rest, 5)
  {
    var i, s := IndexOfPair(k), PAIRS[k].entity + rest;
    assert PAIRS[k].entity == Entity(i) && PAIRS[k].special == Special(i);
    OnlyOneEntity(i, i, rest);
    FivePassesEncode(s);
    FivePassesEncode(rest);
    FivePassesDecode(s);
    FivePassesDecode(rest);
  }

  /** Each of the characters is replaced by its entity, unless it is an ampersand that begins one. */
  lemma SpecialsAreReplaced(k: nat, rest: string)
    requires k < 5 && (k == 0 ==> forall j :: 0 <= j < 5 ==> !StartsWith("&" + rest, PAIRS[j].entity))
    ensures EncodePasses([PAIRS[k].special] + rest, 5) == PAIRS[k].entity + EncodePasses(rest, 5)
  {
    var i, s := IndexOfPair(k), [PAIRS[k].special] + rest;
    assert PAIRS[k].entity == Entity(i) && PAIRS[k].special == Special(i);
    if k == 0 {
      assert s == "&" + rest;
      NoPairNoEntity(s);
    } else {
      NoEntityWithoutAmpersand(s);
    }
    assert s[1..] == rest && IndexOfSpecial(s[0]) == i;
    FivePassesEncode(s);
    FivePassesEncode(rest);
  }

  /** Encoding leaves every other character alone. */
  lemma OthersAreNotEncoded(c: char, rest: string)
    requires forall k :: 0 <= k < 5 ==> c != PAIRS[k].special
    ensures EncodePasses([c] + rest, 5) == [c] + EncodePasses(rest, 5)
  {
    var s := [c] + rest;
    assert c != PAIRS[0].special && c != PAIRS[1].special && c != PAIRS[2].special;
    assert c != PAIRS[3].special && c != PAIRS[4].special;
    NoEntityWithoutAmpersand(s);
    assert s[1..] == rest && !IsSpecial(c);
    FivePassesEncode(s);
    FivePassesEncode(rest);
  }

  /** Decoding leaves every character alone that begins no entity. */
  lemma OthersAreNotDecoded(c: char, rest: string)
    requires forall k :: 0 <= k < 5 ==> !StartsWith([c] + rest, PAIRS[k].entity)
    ensures DecodePasses([c] + rest, 5) == [c] + DecodePasses(rest, 5)
  {
    var s := [c] + rest;
    NoPairNoEntity(s);
    DecodedNext(c, rest);
    FivePassesDecode(s);
    FivePassesDecode(rest);
  }

  lemma DecodedNext(c: char, rest: string)
    requires !HasEntity([c] + rest)
    ensures Decoded([c] + rest) == [c] + Decoded(rest)
  {
    assert ([c] + rest)[1..] == rest;
  }

  lemma PairOf(i: Index)
    ensures PAIRS[if i == 4 then 0 else i + 1] == Pair(Special(i), Entity(i))
  {
  }

  lemma NoPairNoEntity(s: string)
    requires forall k :: 0 <= k < 5 ==> !StartsWith(s, PAIRS[k].entity)
    ensures !HasEntity(s)
  {
    forall i: Index ensures !StartsWith(s, Entity(i)) {
      PairOf(i);
    }
  }

  /** Encoding what is encoded changes nothing. */
  lemma EncodingIsIdempotent(s: string)
    ensures EncodePasses(EncodePasses(s, 5), 5) == EncodePasses(s, 5)
  {
    FivePassesEncode(s);
    FivePassesEncode(Encoded(s));
    EncodedTwice(s);
  }

  /** Encoding first makes no difference to decoding. */
  lemma DecodingForgetsEncoding(s: string)
    ensures DecodePasses(EncodePasses(s, 5), 5) == DecodePasses(s, 5)
  {
    FivePassesEncode(s);
    FivePassesDecode(s);
    FivePassesDecode(Encoded(s));
    DecodedEncoded(s);
  }

  /** Decoding undoes encoding exactly for strings without a predefined entity. */
  lemma DecodingUndoesEncodingIff(s: string)
    ensures DecodePasses(EncodePasses(s, 5), 5) == s <==> !ContainsEntity(s)
  {
    DecodingForgetsEncoding(s);
    FivePassesDecode(s);
    DecodedLength(s);
  }
}
