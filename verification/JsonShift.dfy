/** The scanner looks only forward: moving a text moves what it finds. */
module JsonShift {
  import opened CStrings
  import opened JsonScan
  import opened JsonToken

  /** From position `b` on, `s` is found in `t`, `d` characters later. */
  predicate Shifted(s: string, t: string, b: nat, d: nat) {
    |t| == |s| + d && forall k :: b <= k < |s| ==> t[k + d] == s[k]
  }

  lemma {:induction false} StrChrShift(s: string, t: string, b: nat, d: nat, p: nat, c: char)
    requires Shifted(s, t, b, d) && b <= p <= |s|
    ensures StrChr(t, p + d, c) == StrChr(s, p, c) + d
    decreases |s| - p
  {
    if p < |s| && s[p] != c {
      StrChrShift(s, t, b, d, p + 1, c);
    }
  }

  lemma {:induction false} ValueStartShift(s: string, t: string, b: nat, d: nat, p: nat)
    requires Shifted(s, t, b, d) && b <= p <= |s|
    ensures ValueStart(t, p + d) == ValueStart(s, p) + d
    decreases |s| - p
  {
    if p < |s| && KindOf(s[p]).None? {
      ValueStartShift(s, t, b, d, p + 1);
    }
  }

  lemma {:induction false} NumberEndShift(s: string, t: string, b: nat, d: nat, p: nat)
    requires Shifted(s, t, b, d) && b <= p <= |s|
    ensures NumberEnd(t, p + d) == NumberEnd(s, p) + d
    decreases |s| - p
  {
    if p < |s| && IsNumberChar(s[p]) {
      NumberEndShift(s, t, b, d, p + 1);
    }
  }

  lemma {:induction false} CloseAtShift(s: string, t: string, b: nat, d: nat, p: nat, depth: nat, kind: Kind)
    requires Shifted(s, t, b, d) && b <= p <= |s|
    ensures CloseAt(t, p + d, depth, kind) == CloseAt(s, p, depth, kind) + d
    decreases |s| - p
  {
    if p < |s| {
      if s[p] == Closing(kind) {
        if depth > 0 {
          CloseAtShift(s, t, b, d, p + 1, depth - 1, kind);
        }
      } else if s[p] == Opening(kind) {
        CloseAtShift(s, t, b, d, p + 1, depth + 1, kind);
      } else {
        CloseAtShift(s, t, b, d, p + 1, depth, kind);
      }
    }
  }

  lemma AtShift(s: string, t: string, b: nat, d: nat, p: nat, x: string)
    requires Shifted(s, t, b, d) && b <= p <= |s|
    ensures At(t, p + d, x) == At(s, p, x)
  {
    if p + |x| <= |s| {
      forall k | 0 <= k < |x| ensures (t[p + d + k] == x[k]) == (s[p + k] == x[k]) {
        assert t[(p + k) + d] == s[p + k];
      }
    }
  }

  lemma LiteralLenShift(s: string, t: string, b: nat, d: nat, p: nat, kind: Kind)
    requires Shifted(s, t, b, d) && b <= p <= |s|
    ensures LiteralLen(t, p + d, kind) == LiteralLen(s, p, kind)
  {
    hide At;
    AtShift(s, t, b, d, p, "true");
    AtShift(s, t, b, d, p, "TRUE");
    AtShift(s, t, b, d, p, "false");
    AtShift(s, t, b, d, p, "FALSE");
    AtShift(s, t, b, d, p, "null");
    AtShift(s, t, b, d, p, "NULL");
  }

  lemma ValueLenShift(s: string, t: string, b: nat, d: nat, p: nat, kind: Kind)
    requires Shifted(s, t, b, d) && b <= p <= |s| && (!kind.JsString? ==> p < |s|)
    ensures ValueLen(t, p + d, kind) == ValueLen(s, p, kind)
  {
    hide LiteralLen, CloseAt, NumberEnd;
    LiteralLenShift(s, t, b, d, p, kind);
    if kind.JsString? {
      CloseAtShift(s, t, b, d, p, 0, kind);
    } else {
      CloseAtShift(s, t, b, d, p + 1, 0, kind);
      NumberEndShift(s, t, b, d, p + 1);
    }
  }

  function Moved(hit: Hit, d: nat): Hit {
    match hit
    case Miss => Miss
    case Member(k, kl, v, vl, kind, next) => Member(k + d, kl, v + d, vl, kind, next + d)
  }

  lemma MemberAtShift(s: string, t: string, b: nat, d: nat, key: nat, keyLen: nat, v: nat)
    requires Shifted(s, t, b, d) && b <= key && key + keyLen <= v < |s| && KindOf(s[v]).Some?
    ensures t[v + d] == s[v] && MemberAt(t, key + d, keyLen, v + d) == Moved(MemberAt(s, key, keyLen, v), d)
  {
    hide ValueLen;
    var kind := KindOf(s[v]).value;
    ValueLenShift(s, t, b, d, v + 1, JsString);
    ValueLenShift(s, t, b, d, v, kind);
  }

  lemma NextShift(s: string, t: string, b: nat, d: nat, p: nat)
    requires Shifted(s, t, b, d) && b <= p <= |s|
    ensures Next(t, p + d) == Moved(Next(s, p), d)
  {
    hide Shifted, MemberAt, StrChr, ValueStart, KindOf;
    assert |t| == |s| + d by { ShiftedLength(s, t, b, d); }
    StrChrShift(s, t, b, d, p, '"');
    var q := StrChr(s, p, '"');
    if q < |s| {
      StrChrShift(s, t, b, d, q + 1, '"');
      var q' := StrChr(s, q + 1, '"');
      StrChrShift(s, t, b, d, q', ':');
      ValueStartShift(s, t, b, d, StrChr(s, q', ':'));
      var v := ValueStart(s, StrChr(s, q', ':'));
      if q' < |s| && v < |s| {
        MemberAtShift(s, t, b, d, q + 1, q' - (q + 1), v);
      }
    }
  }

  lemma ShiftedLength(s: string, t: string, b: nat, d: nat)
    requires Shifted(s, t, b, d)
    ensures |t| == |s| + d
  {
  }

  lemma SliceShift(s: string, t: string, b: nat, d: nat, p: nat, q: nat)
    requires Shifted(s, t, b, d) && b <= p <= q <= |s|
    ensures t[p + d..q + d] == s[p..q]
  {
    forall k | 0 <= k < q - p ensures t[p + d..q + d][k] == s[p..q][k] {
      assert t[(p + k) + d] == s[p + k];
    }
  }

  function MovedEntry(e: Option<Entry>, d: nat): Option<Entry> {
    match e case None => None case Some(x) => Some(x.(at := x.at + d))
  }

  lemma {:induction false} FirstShift(s: string, t: string, b: nat, d: nat, p: nat, name: string)
    requires Shifted(s, t, b, d) && b <= p <= |s|
    ensures FirstEntry(Entries(t, p + d), name) == MovedEntry(FirstEntry(Entries(s, p), name), d)
    decreases |s| - p
  {
    hide Shifted, Next, IsNamed, EntryOf, Reported;
    ShiftedLength(s, t, b, d);
    NextShift(s, t, b, d, p);
    var hit := Next(s, p);
    if p < |s| && hit.Member? {
      EntryShift(s, t, b, d, hit, name);
      if hit.next <= |s| {
        FirstShift(s, t, b, d, hit.next, name);
        FirstEntryStep(s, p, name);
        FirstEntryStep(t, p + d, name);
      } else {
        LastEntry(s, p, name);
        LastEntry(t, p + d, name);
      }
    }
  }

  lemma EntryShift(s: string, t: string, b: nat, d: nat, hit: Hit, name: string)
    requires Shifted(s, t, b, d) && hit.Member? && b <= hit.keyAt && hit.keyAt + hit.keyLen <= |s|
    ensures IsNamed(t, Moved(hit, d), name) == IsNamed(s, hit, name)
    ensures EntryOf(t, Moved(hit, d)) == EntryOf(s, hit).(at := EntryOf(s, hit).at + d)
  {
    SliceShift(s, t, b, d, hit.keyAt, hit.keyAt + hit.keyLen);
  }

  lemma LastEntry(s: string, p: nat, name: string)
    requires p < |s| && Next(s, p).Member? && Next(s, p).next > |s|
    ensures FirstEntry(Entries(s, p), name) ==
            if IsNamed(s, Next(s, p), name) then Some(EntryOf(s, Next(s, p))) else None
  {
    assert Reported(s, Next(s, p)) + [] == Reported(s, Next(s, p));
  }

  lemma {:induction false} ObjectAtShift(s: string, t: string, b: nat, d: nat, p: nat)
    requires Shifted(s, t, b, d) && b <= p <= |s|
    ensures ObjectAt(t, p + d) == match ObjectAt(s, p) case None => None case Some(q) => Some(q + d)
    decreases |s| - p
  {
    if p < |s| && s[p] == ' ' {
      ObjectAtShift(s, t, b, d, p + 1);
    }
  }

  lemma LookupShift(s: string, t: string, b: nat, d: nat, p: nat, name: string)
    requires Shifted(s, t, b, d) && b <= p <= |s|
    ensures Lookup(t, p + d, name) == MovedEntry(Lookup(s, p, name), d)
  {
    hide Shifted, Entries, FirstEntry, ObjectAt;
    ShiftedLength(s, t, b, d);
    ObjectAtShift(s, t, b, d, p);
    if ObjectAt(s, p).Some? {
      FirstShift(s, t, b, d, ObjectAt(s, p).value, name);
    }
  }

  lemma {:induction false} ValueOfShift(key: string, k: nat, s: string, t: string, b: nat, d: nat, p: nat)
    requires k <= |key| && Shifted(s, t, b, d) && b <= p <= |s|
    ensures ValueOf(key, k, t, p + d) == ValueOf(key, k, s, p)
    decreases |key| - k
  {
    hide Shifted, Lookup;
    ShiftedLength(s, t, b, d);
    var delim := StrChr(key, k, '.');
    LookupShift(s, t, b, d, p, key[k..delim]);
    var found := Lookup(s, p, key[k..delim]);
    if found.Some? {
      if delim < |key| {
        ValueOfShift(key, delim + 1, s, t, b, d, found.value.at);
      } else {
        SliceShift(s, t, b, d, found.value.at, found.value.at + found.value.len);
      }
    }
  }
}
