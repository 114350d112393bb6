/** C strings: text held in a buffer up to the first NUL, and the library searches the sources use. */
module CStrings {
  const NUL: char := '\0'

  datatype Option<+T> = None | Some(value: T)

  lemma ConcatAssoc(x: string, y: string, z: string)
    ensures (x + y) + z == x + (y + z)
  {
  }

  /** The position of the first `c` at or after `p`, or the end of `s` when there is none (strchr). */
  function StrChr(s: string, p: nat, c: char): (r: nat)
    requires p <= |s|
    ensures p <= r <= |s|
    ensures r < |s| ==> s[r] == c
    decreases |s| - p
  {
    if p == |s| || s[p] == c then p else StrChr(s, p + 1, c)
  }

  /** It is the first one. */
  lemma {:induction false} StrChrIsFirst(s: string, p: nat, c: char)
    requires p <= |s|
    ensures forall k :: p <= k < StrChr(s, p, c) ==> s[k] != c
    decreases |s| - p
  {
    if p < |s| && s[p] != c {
      StrChrIsFirst(s, p + 1, c);
    }
  }

  /** Nothing before `q` is `c`: the search may start at `q`. */
  lemma {:induction false} StrChrSkip(s: string, p: nat, q: nat, c: char)
    requires p <= q <= |s|
    requires forall k :: p <= k < q ==> s[k] != c
    ensures StrChr(s, p, c) == StrChr(s, q, c)
    decreases q - p
  {
    if p < q {
      StrChrSkip(s, p + 1, q, c);
    }
  }

  /** A text found in a buffer: what strlen and strcpy see. */
  function TextOf(b: seq<char>): string {
    b[..StrChr(b, 0, NUL)]
  }

  lemma TextOfIs(b: seq<char>, t: string)
    requires |t| < |b| && b[..|t|] == t && b[|t|] == NUL && NUL !in t
    ensures TextOf(b) == t && StrChr(b, 0, NUL) == |t|
  {
    forall k | 0 <= k < |t| ensures b[k] != NUL {
      assert b[k] == b[..|t|][k];
    }
    StrChrSkip(b, 0, |t|, NUL);
  }

  /** The buffer holds this text. */
  predicate HoldsText(b: seq<char>, t: string) {
    |t| < |b| && NUL !in t && b[..|t|] == t && b[|t|] == NUL
  }

  lemma HeldText(b: seq<char>, t: string)
    requires HoldsText(b, t)
    ensures TextOf(b) == t && StrChr(b, 0, NUL) == |t|
  {
    TextOfIs(b, t);
  }

  lemma TextHeld(b: seq<char>)
    requires StrChr(b, 0, NUL) < |b|
    ensures HoldsText(b, TextOf(b))
  {
    StrChrIsFirst(b, 0, NUL);
  }

  // ---- size_t ----

  const SIZE_SPACE: nat := 0x1_0000_0000

  /** The size_t difference of a size and a length: it wraps. */
  function Remain(size: nat, used: nat): (r: nat)
    requires size < SIZE_SPACE && used < SIZE_SPACE
  {
    if used <= size then size - used else size + SIZE_SPACE - used
  }

  lemma RemainIsModulo(size: nat, used: nat)
    requires size < SIZE_SPACE && used < SIZE_SPACE
    ensures Remain(size, used) == (size - used) % SIZE_SPACE
  {
  }

  // ---- copying and comparing ----

  /** memcpy into a buffer. */
  method CopyIn(dest: array<char>, pos: nat, source: string)
    requires pos + |source| <= dest.Length
    modifies dest
    ensures forall k :: 0 <= k < pos || pos + |source| <= k < dest.Length ==> dest[k] == old(dest[k])
    ensures forall n :: 0 <= n < |source| ==> dest[pos + n] == source[n]
  {
    for n := 0 to |source|
      invariant forall k :: 0 <= k < pos || pos + n <= k < dest.Length ==> dest[k] == old(dest[k])
      invariant forall m :: 0 <= m < n ==> dest[pos + m] == source[m]
    {
      dest[pos + n] := source[n];
    }
  }

  /** strncmp(s + p, x, |x|) == 0 for a NUL-free `x`. */
  predicate At(s: string, p: nat, x: string)
    requires p <= |s|
  {
    p + |x| <= |s| && forall k :: 0 <= k < |x| ==> s[p + k] == x[k]
  }

  lemma AtChar(s: string, p: nat, c: char)
    requires p <= |s| && At(s, p, [c])
    ensures p < |s| && s[p] == c
  {
    assert s[p + 0] == [c][0];
  }

  lemma AtSplit(s: string, p: nat, a: string, b: string)
    requires p <= |s| && At(s, p, a + b)
    ensures At(s, p, a) && p + |a| <= |s| && At(s, p + |a|, b)
  {
    forall k | 0 <= k < |a| ensures s[p + k] == a[k] {
      assert (a + b)[k] == a[k];
    }
    forall k | 0 <= k < |b| ensures s[p + |a| + k] == b[k] {
      assert (a + b)[|a| + k] == b[k];
    }
  }

  lemma AtSplit3(s: string, p: nat, a: string, b: string, c: string)
    requires p <= |s| && At(s, p, a + b + c)
    ensures At(s, p, a) && p + |a| <= |s| && At(s, p + |a|, b)
    ensures p + |a| + |b| <= |s| && At(s, p + |a| + |b|, c)
  {
    AtSplit(s, p, a + b, c);
    AtSplit(s, p, a, b);
  }

  lemma AtSplit4(s: string, p: nat, a: string, b: string, c: string, d: string)
    requires p <= |s| && At(s, p, a + b + c + d)
    ensures At(s, p, a) && p + |a| <= |s| && At(s, p + |a|, b)
    ensures p + |a| + |b| <= |s| && At(s, p + |a| + |b|, c)
    ensures p + |a| + |b| + |c| <= |s| && At(s, p + |a| + |b| + |c|, d)
  {
    AtSplit(s, p, a + b + c, d);
    AtSplit3(s, p, a, b, c);
  }

  lemma AtIsSlice(s: string, p: nat, x: string)
    requires p <= |s| && At(s, p, x)
    ensures s[p..p + |x|] == x
  {
  }

  /** strstr(hay, needle) != NULL. */
  predicate Contains(hay: string, needle: string) {
    needle <= hay || (hay != "" && Contains(hay[1..], needle))
  }

  lemma {:induction false} ContainsFrom(text: string, i: nat, key: string)
    requires i + |key| <= |text| && text[i..i + |key|] == key
    ensures Contains(text, key)
  {
    if i == 0 {
      assert key <= text;
    } else {
      assert text[1..][i - 1..i - 1 + |key|] == text[i..i + |key|];
      ContainsFrom(text[1..], i - 1, key);
    }
  }

  lemma {:induction false} ContainsLength(s: string, key: string)
    requires Contains(s, key)
    ensures |key| <= |s|
  {
    if !(key <= s) {
      ContainsLength(s[1..], key);
    }
  }

  lemma {:induction false} ContainsIn(hay: string, needle: string) returns (p: nat)
    requires Contains(hay, needle)
    ensures p + |needle| <= |hay| && hay[p..p + |needle|] == needle
  {
    if needle <= hay {
      p := 0;
    } else {
      p := ContainsIn(hay[1..], needle);
      assert hay[1..][p..p + |needle|] == hay[p + 1..p + 1 + |needle|];
      p := p + 1;
    }
  }

  predicate StandsAt(hay: string, p: nat, needle: string) {
    p + |needle| <= |hay| && hay[p..p + |needle|] == needle
  }

  /** strstr finds a text exactly if it stands somewhere, letter by letter. */
  lemma ContainsExactly(hay: string, needle: string)
    ensures Contains(hay, needle) <==> exists p :: StandsAt(hay, p, needle)
  {
    hide Contains;
    if Contains(hay, needle) {
      var p := ContainsIn(hay, needle);
      assert StandsAt(hay, p, needle);
    }
    forall p | StandsAt(hay, p, needle) ensures Contains(hay, needle) {
      ContainsFrom(hay, p, needle);
    }
  }
}
