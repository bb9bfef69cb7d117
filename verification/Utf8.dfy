/** Cutting stored text to a size without cutting a character. */
module Utf8 {

  type Bytes = seq<bv8>

  /** Not a continuation byte. */
  predicate IsUtf8Start(b: bv8) { b & 0xC0 != 0x80 }

  predicate IsTail(b: bv8) { 0x80 <= b <= 0xBF }

  lemma StartIsNotTail(b: bv8)
    ensures IsUtf8Start(b) <==> !IsTail(b)
  {
  }

  /** One well-formed character, as section 4 of RFC 3629 lists them. */
  predicate IsChar(c: Bytes) {
    if |c| == 1 then c[0] <= 0x7F
    else if |c| == 2 then 0xC2 <= c[0] <= 0xDF && IsTail(c[1])
    else if |c| == 3 then
      && IsTail(c[1]) && IsTail(c[2])
      && ( || (c[0] == 0xE0 && 0xA0 <= c[1])
           || 0xE1 <= c[0] <= 0xEC
           || (c[0] == 0xED && c[1] <= 0x9F)
           || 0xEE <= c[0] <= 0xEF)
    else if |c| == 4 then
      && IsTail(c[1]) && IsTail(c[2]) && IsTail(c[3])
      && ( || (c[0] == 0xF0 && 0x90 <= c[1])
           || 0xF1 <= c[0] <= 0xF3
           || (c[0] == 0xF4 && c[1] <= 0x8F))
    else false
  }

  function Flatten(chars: seq<Bytes>): Bytes {
    if chars == [] then [] else chars[0] + Flatten(chars[1..])
  }

  ghost predicate Encodes(chars: seq<Bytes>, s: Bytes) {
    (forall c :: c in chars ==> IsChar(c)) && Flatten(chars) == s
  }

  /** The last position up to `cut` where a character starts, or the beginning. */
  function LastStart(s: Bytes, cut: nat): (r: nat)
    requires cut < |s|
    ensures r <= cut && (r == 0 || IsUtf8Start(s[r]))
    ensures forall i :: r < i <= cut ==> !IsUtf8Start(s[i])
  {
    if cut == 0 || IsUtf8Start(s[cut]) then cut else LastStart(s, cut - 1)
  }

  function Truncated(s: Bytes, max: nat): Bytes {
    if |s| <= max then s else s[..LastStart(s, max)]
  }

  method Truncate(s: Bytes, max: nat) returns (r: Bytes)
    ensures r == Truncated(s, max)
    ensures r <= s && |r| <= max && (|s| <= max ==> r == s)
    ensures |s| > max ==> (r == [] || !(0x80 <= s[|r|] <= 0xBF)) && forall i :: |r| < i <= max ==> 0x80 <= s[i] <= 0xBF
  {
    hide IsUtf8Start;
    forall b ensures IsUtf8Start(b) <==> !(0x80 <= b <= 0xBF) { StartIsNotTail(b); }
    if |s| <= max {
      return s;
    }
    var cut := max;
    while cut > 0 && !IsUtf8Start(s[cut])
      invariant 0 <= cut <= max
      invariant LastStart(s, max) == LastStart(s, cut)
    {
      cut := cut - 1;
    }
    return s[..cut];
  }

  /** Inside a character every byte but the first is a continuation. */
  lemma CharStarts(c: Bytes, i: nat)
    requires IsChar(c) && i < |c|
    ensures IsUtf8Start(c[i]) <==> i == 0
  {
    StartIsNotTail(c[i]);
    if i == 0 {
      FirstIsNoTail(c);
    }
  }

  lemma FirstIsNoTail(c: Bytes)
    requires IsChar(c)
    ensures |c| > 0 && !IsTail(c[0])
  {
  }

  lemma {:induction false} FlattenAppend(a: seq<Bytes>, b: seq<Bytes>)
    ensures Flatten(a + b) == Flatten(a) + Flatten(b)
  {
    if a == [] {
      assert a + b == b;
    } else {
      FlattenAppend(a[1..], b);
      assert (a + b)[1..] == a[1..] + b && (a + b)[0] == a[0];
    }
  }

  /** Where characters start is where start bytes are. */
  lemma {:induction false} StartsAreBoundaries(chars: seq<Bytes>, p: nat)
    requires (forall c :: c in chars ==> IsChar(c)) && p < |Flatten(chars)|
    ensures IsUtf8Start(Flatten(chars)[p]) <==> exists k :: 0 <= k < |chars| && |Flatten(chars[..k])| == p
  {
    hide IsChar, IsUtf8Start;
    var c, rest := chars[0], chars[1..];
    assert c in chars;
    FirstIsNoTail(c);
    assert Flatten(chars[..0]) == [];
    if p < |c| {
      CharStarts(c, p);
      forall k | 0 < k < |chars| ensures |Flatten(chars[..k])| != p {
        assert chars[..k] == [c] + chars[1..k];
        assert Flatten(chars[..k]) == c + Flatten(chars[..k][1..]);
      }
    } else {
      StartsAreBoundaries(rest, p - |c|);
      assert Flatten(chars)[p] == Flatten(rest)[p - |c|];
      forall k | 0 <= k < |rest| ensures |Flatten(rest[..k])| == p - |c| <==> |Flatten(chars[..k + 1])| == p {
        assert chars[..k + 1][1..] == rest[..k];
      }
      if IsUtf8Start(Flatten(chars)[p]) {
        var k :| 0 <= k < |rest| && |Flatten(rest[..k])| == p - |c|;
        assert |Flatten(chars[..k + 1])| == p;
      } else {
        forall k | 0 <= k < |chars| ensures |Flatten(chars[..k])| != p {
          if k > 0 { assert |Flatten(rest[..k - 1])| != p - |c|; }
        }
      }
    }
  }

  lemma FlattenOne(c: Bytes)
    ensures Flatten([c]) == c
  {
    assert [c][1..] == [];
  }

  lemma PrefixOfFlatten(chars: seq<Bytes>, k: nat)
    requires k <= |chars|
    ensures Flatten(chars[..k]) <= Flatten(chars)
    ensures k < |chars| ==> Flatten(chars[..k + 1]) == Flatten(chars[..k]) + chars[k]
  {
    hide Flatten;
    assert chars == chars[..k] + chars[k..];
    FlattenAppend(chars[..k], chars[k..]);
    if k < |chars| {
      assert chars[..k + 1] == chars[..k] + [chars[k]];
      FlattenAppend(chars[..k], [chars[k]]);
      FlattenOne(chars[k]);
    }
  }

  /** The result is whole characters, fits, and one more character would not. */
  ghost predicate LongestWholePrefix(chars: seq<Bytes>, max: nat, r: Bytes) {
    exists k :: 0 <= k <= |chars| && r == Flatten(chars[..k]) && |r| <= max
                && (k < |chars| ==> |Flatten(chars[..k + 1])| > max)
  }

  /** The cut falls before some character. */
  lemma CutIsBoundary(chars: seq<Bytes>, s: Bytes, max: nat) returns (k: nat)
    requires Encodes(chars, s) && |s| > max
    ensures k < |chars| && |Flatten(chars[..k])| == LastStart(s, max)
  {
    hide IsChar, IsUtf8Start;
    var cut := LastStart(s, max);
    k := 0;
    if cut > 0 {
      StartsAreBoundaries(chars, cut);
      k :| 0 <= k < |chars| && |Flatten(chars[..k])| == cut;
    } else {
      assert chars != [];
      assert Flatten(chars[..0]) == [];
    }
  }

  /** One character more does not fit. */
  lemma NextDoesNotFit(chars: seq<Bytes>, s: Bytes, max: nat, k: nat)
    requires Encodes(chars, s) && |s| > max && k < |chars| && |Flatten(chars[..k])| == LastStart(s, max)
    ensures |Flatten(chars[..k + 1])| > max
  {
    hide IsChar, IsUtf8Start;
    PrefixOfFlatten(chars, k);
    assert chars[k] in chars;
    FirstIsNoTail(chars[k]);
    var next := |Flatten(chars[..k + 1])|;
    if k + 1 == |chars| {
      assert chars[..k + 1] == chars;
    } else if next <= max {
      StartsAreBoundaries(chars, next);
    }
  }

  /** On well-formed text the cut never splits a character, and keeps as many as fit. */
  lemma TruncateKeepsWholeCharacters(chars: seq<Bytes>, s: Bytes, max: nat)
    requires Encodes(chars, s)
    ensures LongestWholePrefix(chars, max, Truncated(s, max))
  {
    if |s| <= max {
      assert chars[..|chars|] == chars;
    } else {
      var k := CutIsBoundary(chars, s, max);
      NextDoesNotFit(chars, s, max, k);
      hide Flatten, Encodes, IsChar, IsUtf8Start;
      PrefixOfFlatten(chars, k);
      assert Flatten(chars) == s by { EncodedText(chars, s); }
      assert Truncated(s, max) == Flatten(chars[..k]);
    }
  }

  lemma EncodedText(chars: seq<Bytes>, s: Bytes)
    requires Encodes(chars, s)
    ensures Flatten(chars) == s
  {
  }

  /** Cutting again at the same size changes nothing. */
  lemma TruncateTwice(s: Bytes, max: nat)
    ensures |Truncated(s, max)| <= max
    ensures Truncated(Truncated(s, max), max) == Truncated(s, max)
  {
  }
}
