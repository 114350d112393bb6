/** LITE_replace_substr of src/utils/string_utils.c. */
module ReplaceSubstr {
  import opened CStrings

  const TMP_SIZE: nat := 512

  /** Leftmost occurrences first, not overlapping; inserted text is never looked at again. */
  function Replace(s: string, key: string, swap: string): string
    requires key != ""
  {
    if |s| < |key| then s
    else if s[..|key|] == key then swap + Replace(s[|key|..], key, swap)
    else [s[0]] + Replace(s[1..], key, swap)
  }

  lemma {:induction false} ReplaceLength(s: string, key: string, swap: string)
    requires key != ""
    ensures |swap| >= |key| ==> |Replace(s, key, swap)| >= |s|
    ensures |swap| <= |key| ==> |Replace(s, key, swap)| <= |s|
  {
    if |s| >= |key| {
      if s[..|key|] == key {
        ReplaceLength(s[|key|..], key, swap);
      } else {
        ReplaceLength(s[1..], key, swap);
      }
    }
  }

  /** A text without the key stays as it is. */
  lemma {:induction false} ReplaceNothing(s: string, key: string, swap: string)
    requires key != "" && !Contains(s, key)
    ensures Replace(s, key, swap) == s
  {
    if |s| >= |key| {
      assert s[..|key|] == key ==> key <= s;
      ReplaceNothing(s[1..], key, swap);
    }
  }

  /** Replacing a key by itself changes nothing. */
  lemma {:induction false} ReplaceBySelf(s: string, key: string)
    requires key != ""
    ensures Replace(s, key, key) == s
  {
    if |s| >= |key| {
      if s[..|key|] == key {
        ReplaceBySelf(s[|key|..], key);
      } else {
        ReplaceBySelf(s[1..], key);
      }
    }
  }

  // ---- what leftmost and not overlapping means ----

  /** The pieces of a text between the keys that are replaced. */
  function Parts(s: string, key: string): (parts: seq<string>)
    requires key != ""
    ensures parts != []
  {
    if |s| < |key| then [s]
    else if s[..|key|] == key then [""] + Parts(s[|key|..], key)
    else
      var rest := Parts(s[1..], key);
      [[s[0]] + rest[0]] + rest[1..]
  }

  function Glue(parts: seq<string>, between: string): string
    requires parts != []
  {
    if |parts| == 1 then parts[0] else parts[0] + between + Glue(parts[1..], between)
  }

  /** No key starts before the one that ends a piece, and none is left in the last piece. */
  predicate Leftmost(parts: seq<string>, key: string)
    requires parts != [] && key != ""
  {
    if |parts| == 1 then !Contains(parts[0], key)
    else !Contains(parts[0] + key[..|key| - 1], key) && Leftmost(parts[1..], key)
  }

  lemma {:induction false} GlueHead(c: char, parts: seq<string>, between: string)
    requires parts != []
    ensures Glue([[c] + parts[0]] + parts[1..], between) == [c] + Glue(parts, between)
  {
    var longer := [[c] + parts[0]] + parts[1..];
    if |parts| > 1 {
      assert longer[1..] == parts[1..];
      assert longer[0] + between + Glue(parts[1..], between) == [c] + (parts[0] + between + Glue(parts[1..], between));
    }
  }

  lemma GlueEmpty(parts: seq<string>, between: string)
    requires parts != []
    ensures Glue([""] + parts, between) == between + Glue(parts, between)
  {
    assert ([""] + parts)[1..] == parts;
    assert "" + between == between;
  }

  /** The replacement glues with the swap the pieces that the key glues to the original. */
  lemma {:induction false} ReplaceIsGlue(s: string, key: string, swap: string)
    requires key != ""
    ensures Glue(Parts(s, key), key) == s
    ensures Glue(Parts(s, key), swap) == Replace(s, key, swap)
  {
    if |s| >= |key| {
      if s[..|key|] == key {
        var rest := Parts(s[|key|..], key);
        ReplaceIsGlue(s[|key|..], key, swap);
        GlueEmpty(rest, key);
        GlueEmpty(rest, swap);
      } else {
        var rest := Parts(s[1..], key);
        ReplaceIsGlue(s[1..], key, swap);
        GlueHead(s[0], rest, key);
        GlueHead(s[0], rest, swap);
      }
    }
  }

  /** The pieces are the leftmost ones. */
  lemma {:induction false} PartsAreLeftmost(s: string, key: string)
    requires key != ""
    ensures Leftmost(Parts(s, key), key)
  {
    if |s| < |key| {
      if Contains(s, key) {
        ContainsLength(s, key);
      }
    } else if s[..|key|] == key {
      var rest := Parts(s[|key|..], key);
      PartsAreLeftmost(s[|key|..], key);
      assert ([""] + rest)[1..] == rest;
      if Contains("" + key[..|key| - 1], key) {
        ContainsLength("" + key[..|key| - 1], key);
      }
    } else {
      PartsAreLeftmost(s[1..], key);
      ReplaceIsGlue(s, key, "");
      LeftmostHead(s[0], Parts(s[1..], key), key, s);
    }
  }

  lemma LeftmostHead(c: char, parts: seq<string>, key: string, s: string)
    requires parts != [] && key != "" && Leftmost(parts, key)
    requires s == Glue([[c] + parts[0]] + parts[1..], key) && !(key <= s)
    ensures Leftmost([[c] + parts[0]] + parts[1..], key)
  {
    var longer := [[c] + parts[0]] + parts[1..];
    assert longer[1..] == parts[1..];
    var tail := if |parts| == 1 then "" else key[..|key| - 1];
    var head := longer[0] + tail;
    assert head <= s by {
      assert key == key[..|key| - 1] + [key[|key| - 1]];
    }
    assert head[1..] == parts[0] + tail;
    assert parts[0] + "" == parts[0] && longer[0] + "" == longer[0];
    assert key <= head ==> key <= s;
  }

  function Written(b: seq<char>, at: nat, src: string): seq<char>
    requires at + |src| < |b|
  {
    b[..at] + src + [NUL] + b[at + |src| + 1..]
  }

  lemma WrittenIs(was: seq<char>, b: seq<char>, at: nat, src: string)
    requires |b| == |was| && at + |src| < |b| && b[at + |src|] == NUL
    requires forall k :: 0 <= k < |src| ==> b[at + k] == src[k]
    requires forall k :: 0 <= k < at || at + |src| < k < |b| ==> b[k] == was[k]
    ensures b == Written(was, at, src)
  {
    forall k | at <= k < at + |src| ensures b[k] == src[k - at] {
      assert b[at + (k - at)] == src[k - at];
    }
  }

  /** strcpy(b + at, src) */
  method StrCpy(b: array<char>, at: nat, src: string)
    requires at + |src| < b.Length
    modifies b
    ensures b[..] == Written(old(b[..]), at, src)
  {
    for n := 0 to |src|
      invariant forall k :: 0 <= k < n ==> b[at + k] == src[k]
      invariant forall k :: 0 <= k < at || at + n <= k < b.Length ==> b[k] == old(b[k])
    {
      b[at + n] := src[n];
    }
    b[at + |src|] := NUL;
    WrittenIs(old(b[..]), b[..], at, src);
  }

  /** A text at the start of a buffer, before anything else. */
  predicate Opens(b: seq<char>, kept: string) {
    NUL !in kept && kept <= b
  }

  /** Writing a text after a text that is kept leaves both. */
  lemma WrittenHolds(b: seq<char>, at: nat, kept: string, src: string)
    requires at + |src| < |b| && at == |kept| && Opens(b, kept) && NUL !in src
    ensures HoldsText(Written(b, at, src), kept + src)
  {
    var w := Written(b, at, src);
    assert w[..at + |src|] == kept + src;
  }

  method CopyAfter(b: array<char>, ghost kept: string, at: nat, src: string)
    requires Opens(b[..], kept) && at == |kept| && NUL !in src && at + |src| < b.Length
    modifies b
    ensures HoldsText(b[..], kept + src)
  {
    hide Written, HoldsText, Opens;
    WrittenHolds(b[..], at, kept, src);
    StrCpy(b, at, src);
  }

  /** The first `i` characters are done, the rest is still to be replaced. */
  ghost function Rest(text: string, i: nat, key: string, swap: string): string
    requires key != ""
  {
    if i <= |text| then text[..i] + Replace(text[i..], key, swap) else text
  }

  function Swapped(text: string, i: nat, key: string, swap: string): string
    requires i + |key| <= |text|
  {
    text[..i] + swap + text[i + |key|..]
  }

  lemma RestStep(text: string, i: nat, key: string, swap: string)
    requires key != "" && i + |key| <= |text|
    ensures text[i..i + |key|] == key ==>
              Rest(text, i, key, swap) == Rest(Swapped(text, i, key, swap), i + |swap|, key, swap)
    ensures text[i..i + |key|] != key ==> Rest(text, i, key, swap) == Rest(text, i + 1, key, swap)
  {
    var t := text[i..];
    assert t[..|key|] == text[i..i + |key|];
    if t[..|key|] == key {
      var after := Swapped(text, i, key, swap);
      assert after[..i + |swap|] == text[..i] + swap;
      assert after[i + |swap|..] == text[i + |key|..] == t[|key|..];
      hide Swapped;
      ConcatAssoc(text[..i], swap, Replace(t[|key|..], key, swap));
    } else {
      assert t[1..] == text[i + 1..];
      assert text[..i + 1] == text[..i] + [t[0]];
      ConcatAssoc(text[..i], [t[0]], Replace(t[1..], key, swap));
    }
  }

  lemma RestEnd(text: string, i: nat, key: string, swap: string)
    requires key != "" && i <= |text| < i + |key|
    ensures Rest(text, i, key, swap) == text
  {
  }

  /** No text on the way is longer than both the first and the last. */
  lemma SwappedLength(text: string, i: nat, key: string, swap: string)
    requires key != "" && i + |key| <= |text| && text[i..i + |key|] == key
    ensures var n := |Swapped(text, i, key, swap)|;
            n == |text| - |key| + |swap| && (n <= |text| || n <= |Rest(text, i, key, swap)|)
  {
    RestStep(text, i, key, swap);
    ReplaceLength(text[i + |key|..], key, swap);
    var after := Swapped(text, i, key, swap);
    assert after[i + |swap|..] == text[i + |key|..];
  }

  lemma RestStart(text: string, key: string, swap: string)
    requires key != ""
    ensures Rest(text, 0, key, swap) == Replace(text, key, swap)
  {
    assert text[0..] == text;
  }

  /** The key comparison loop. */
  method MatchAt(b: array<char>, i: nat, key: string, ghost text: string) returns (flag: bool)
    requires HoldsText(b[..], text) && i + |key| <= |text|
    ensures flag <==> text[i..i + |key|] == key
  {
    for j := 0 to |key|
      invariant forall k :: 0 <= k < j ==> key[k] == text[i + k]
    {
      assert b[i + j] == b[..|text|][i + j];
      if b[i + j] != key[j] {
        assert text[i..i + |key|][j] != key[j];
        return false;
      }
    }
    assert text[i..i + |key|] == key;
    flag := true;
  }

  /** The four copies: the text up to `i`, the swap and the text after the key, by way of `tmp`. */
  method CopySwapped(original: array<char>, tmp: array<char>, i: nat, key: string, swap: string, length: nat,
                     ghost text: string)
    requires HoldsText(original[..], text) && length == |text| && i + |key| <= length && NUL !in swap && original != tmp
    requires length < tmp.Length && |Swapped(text, i, key, swap)| < tmp.Length
    requires |Swapped(text, i, key, swap)| < original.Length
    modifies original, tmp
    ensures HoldsText(original[..], Swapped(text, i, key, swap))
  {
    assert length < original.Length;
    hide Opens, Swapped, HoldsText, TextOf, StrChr;
    ghost var head := text[..i];
    ghost var tail := text[i + |key|..];
    SwapPieces(original[..], text, i, key, swap);
    assert original[..length] == text && original[i + |key|..length] == tail;
    OpensNothing(tmp[..]);
    CopyAfter(tmp, "", 0, original[..length]);
    HoldsPrefix(tmp[..], text, i);
    CopyAfter(tmp, head, i, swap);
    HoldsPrefix(tmp[..], head + swap, i + |swap|);
    assert (head + swap)[..i + |swap|] == head + swap;
    CopyAfter(tmp, head + swap, i + |swap|, original[i + |key|..length]);
    HeldText(tmp[..], Swapped(text, i, key, swap));
    OpensNothing(original[..]);
    CopyAfter(original, "", 0, TextOf(tmp[..]));
  }

  lemma OpensNothing(b: seq<char>)
    ensures Opens(b, "")
  {
  }

  lemma SwapPieces(b: seq<char>, text: string, i: nat, key: string, swap: string)
    requires HoldsText(b, text) && i + |key| <= |text| && NUL !in swap
    ensures b[..|text|] == text && b[i + |key|..|text|] == text[i + |key|..]
    ensures Swapped(text, i, key, swap) == text[..i] + swap + text[i + |key|..]
    ensures |Swapped(text, i, key, swap)| == |text| - |key| + |swap|
    ensures NUL !in text[..i] && NUL !in text[..i] + swap && NUL !in text[i + |key|..] && NUL !in text
    ensures NUL !in Swapped(text, i, key, swap) && "" + text == text &&
            "" + Swapped(text, i, key, swap) == Swapped(text, i, key, swap)
  {
    assert b[i + |key|..|text|] == b[..|text|][i + |key|..];
  }

  lemma HoldsPrefix(b: seq<char>, t: string, i: nat)
    requires HoldsText(b, t) && i <= |t|
    ensures Opens(b, t[..i])
  {
    assert b[..i] == b[..|t|][..i];
  }

  /** A text that fits `tmp` and the buffer. */
  predicate Fits(t: string, size: nat) {
    |t| < TMP_SIZE && |t| < size
  }

  /**
   * The in-place form is the replacement, and it ends: length less index falls at every turn. Only a text with
   * the key goes through `tmp`.
   */
  method LiteReplaceSubstr(original: array<char>, key: string, swap: string)
    requires key != "" && NUL !in swap
    requires StrChr(original[..], 0, NUL) < original.Length
    requires var s := TextOf(original[..]);
             Contains(s, key) ==> Fits(s, original.Length) && Fits(Replace(s, key, swap), original.Length)
    modifies original
    ensures TextOf(original[..]) == Replace(old(TextOf(original[..])), key, swap)
  {
    hide Replace, Rest, TextOf, StrChr, HoldsText, Swapped;
    ghost var result := Replace(TextOf(original[..]), key, swap);
    ghost var start := TextOf(original[..]);
    ghost var text := start;
    if !Contains(start, key) {
      ReplaceNothing(start, key, swap);
    }
    TextHeld(original[..]);
    HeldText(original[..], text);
    RestStart(text, key, swap);
    var length := StrChr(original[..], 0, NUL);
    var tmp := new char[TMP_SIZE](_ => NUL);
    var i := 0;
    while i <= length - |key|
      invariant 0 <= i <= length == |text| < original.Length && HoldsText(original[..], text)
      invariant Rest(text, i, key, swap) == result
      invariant Contains(start, key) ==> Fits(text, original.Length) && Fits(result, original.Length)
      invariant !Contains(start, key) ==> text == start
      decreases length - i
    {
      var flag := MatchAt(original, i, key, text);
      RestStep(text, i, key, swap);
      if flag {
        ContainsFrom(text, i, key);
        SwappedLength(text, i, key, swap);
        CopySwapped(original, tmp, i, key, swap, length, text);
        text := Swapped(text, i, key, swap);
        HeldText(original[..], text);
        length := StrChr(original[..], 0, NUL);
        i := i + |swap|;
      } else {
        i := i + 1;
      }
    }
    RestEnd(text, i, key, swap);
    HeldText(original[..], text);
  }
}
