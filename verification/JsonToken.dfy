/** Dotted-path lookup of src/utils/json_token.c, on text and on trees. */
module JsonToken {
  import opened CStrings
  import opened JsonScan
  import opened JsonTree
  import opened JsonView

  /** What LITE_json_value_of returns for the key text from `k` on, in the text from `from` on. */
  function ValueOf(key: string, k: nat, s: string, from: nat): (r: Option<string>)
    requires k <= |key| && from <= |s|
    decreases |key| - k
  {
    var delim := StrChr(key, k, '.');
    var found := Lookup(s, from, key[k..delim]);
    if found.None? then None
    else if delim < |key| then ValueOf(key, delim + 1, s, found.value.at)
    else Some(s[found.value.at..found.value.at + found.value.len])
  }

  /** No search for a part of the key, from `k` on, takes its cursor out of the text. */
  predicate KeyStays(key: string, k: nat, s: string, from: nat)
    requires k <= |key| && from <= |s|
    decreases |key| - k
  {
    var delim := StrChr(key, k, '.');
    var found := Lookup(s, from, key[k..delim]);
    && LookupStays(s, from, key[k..delim])
    && (found.Some? && delim < |key| ==> KeyStays(key, delim + 1, s, found.value.at))
  }

  lemma {:induction false} KeyStaysUnlessQuote(key: string, k: nat, s: string, from: nat)
    requires k <= |key| && from <= |s| && (s == "" || s[|s| - 1] != '"')
    ensures KeyStays(key, k, s, from)
    decreases |key| - k
  {
    hide Lookup, StrChr, LoopStays;
    var delim := StrChr(key, k, '.');
    var start := ObjectAt(s, from);
    if start.Some? {
      LoopStaysUnlessQuote(s, start.value, key[k..delim]);
    }
    var found := Lookup(s, from, key[k..delim]);
    if found.Some? && delim < |key| {
      KeyStaysUnlessQuote(key, delim + 1, s, found.value.at);
    }
  }

  /**
   * LITE_json_value_of, wherever its cursor stays inside the text: on every text that does not end in a
   * quote, at least.
   */
  method LiteJsonValueOf(key: string, src: string) returns (ret: Option<string>)
    requires KeyStays(key, 0, src, 0)
    ensures ret == ValueOf(key, 0, src, 0)
  {
    hide Lookup, StrChr, LookupStays;
    var srcIter: nat, keyIter: nat := 0, 0;
    var delim := StrChr(key, keyIter, '.');
    while delim < |key|
      invariant keyIter <= |key| && srcIter <= |src| && delim == StrChr(key, keyIter, '.')
      invariant ValueOf(key, 0, src, 0) == ValueOf(key, keyIter, src, srcIter) && KeyStays(key, keyIter, src, srcIter)
      decreases |key| - keyIter
    {
      var value := JsonGetValueByName(src, srcIter, key[keyIter..delim]);
      if value.None? {
        return None;
      }
      srcIter := value.value.at;
      keyIter := delim + 1;
      delim := StrChr(key, keyIter, '.');
    }
    var value := JsonGetValueByName(src, srcIter, key[keyIter..delim]);
    if value.None? {
      return None;
    }
    ret := Some(src[value.value.at..value.value.at + value.value.len]);
  }

  /** The parts of a dotted key. */
  function Split(key: string, k: nat): (path: seq<string>)
    requires k <= |key|
    ensures path != []
    decreases |key| - k
  {
    var delim := StrChr(key, k, '.');
    [key[k..delim]] + if delim < |key| then Split(key, delim + 1) else []
  }

  // ---- lookup on trees ----

  function Fields(ms: Members): seq<Field>
    decreases ms
  {
    if ms.Nil? then [] else [Field(ms.key, ms.val)] + Fields(ms.tail)
  }

  function FirstField(fs: seq<Field>, name: string): (r: Option<nat>)
    ensures r.Some? ==> r.value < |fs| && fs[r.value].key == name && Counts(fs[r.value])
  {
    if fs == [] then None
    else if Counts(fs[0]) && fs[0].key == name then Some(0)
    else match FirstField(fs[1..], name) case None => None case Some(i) => Some(i + 1)
  }

  predicate IsObject(v: Value) {
    v.Block? && v.shape.JsObject?
  }

  /** The first value at a path. */
  function TreeLookup(fs: seq<Field>, path: seq<string>): Option<string>
    requires path != []
    decreases |path|
  {
    match FirstField(fs, path[0])
    case None => None
    case Some(i) =>
      if |path| == 1 then Some(Seen(fs[i].val))
      else if IsObject(fs[i].val) then TreeLookup(Fields(fs[i].val.members), path[1..])
      else None
  }

  /**
   * What the code looks up instead: the search for the next part is not cut off at the end of the
   * nested object but runs on into the fields that follow it (json_token.c:58).
   */
  function FlatLookup(fs: seq<Field>, path: seq<string>): Option<string>
    requires path != []
    decreases |path|
  {
    match FirstField(fs, path[0])
    case None => None
    case Some(i) =>
      if |path| == 1 then Some(Seen(fs[i].val))
      else if IsObject(fs[i].val) then FlatLookup(Fields(fs[i].val.members) + fs[i + 1..], path[1..])
      else None
  }

  /** A string that begins, after spaces, with a brace: the code would look for members inside it. */
  predicate Disguised(v: Value) {
    v.Str? && ObjectAt(v.text, 0).Some?
  }

  /** The lookup comes upon no such string where it needs an object. */
  predicate Straight(fs: seq<Field>, path: seq<string>)
    requires path != []
    decreases |path|
  {
    match FirstField(fs, path[0])
    case None => true
    case Some(i) =>
      |path| == 1
      || if IsObject(fs[i].val) then Straight(Fields(fs[i].val.members) + fs[i + 1..], path[1..])
         else !Disguised(fs[i].val)
  }

  lemma {:induction false} FirstFieldConcat(fs: seq<Field>, more: seq<Field>, name: string)
    requires FirstField(fs, name).Some?
    ensures FirstField(fs + more, name) == FirstField(fs, name)
  {
    assert (fs + more)[0] == fs[0];
    assert (fs + more)[1..] == fs[1..] + more;
    if !(Counts(fs[0]) && fs[0].key == name) {
      FirstFieldConcat(fs[1..], more, name);
    }
  }

  /** Where the tree has the path, the two lookups agree. */
  lemma {:induction false} PresentPathsAgree(fs: seq<Field>, more: seq<Field>, path: seq<string>)
    requires path != [] && TreeLookup(fs, path).Some?
    ensures FlatLookup(fs + more, path) == TreeLookup(fs, path)
    decreases |path|
  {
    hide FirstField, Seen, Fields;
    FirstFieldConcat(fs, more, path[0]);
    var i := FirstField(fs, path[0]).value;
    assert (fs + more)[i] == fs[i];
    if |path| > 1 {
      PresentPathsAgree(Fields(fs[i].val.members), (fs + more)[i + 1..], path[1..]);
    }
  }

  lemma {:induction false} PresentIsStraight(fs: seq<Field>, more: seq<Field>, path: seq<string>)
    requires path != [] && TreeLookup(fs, path).Some?
    ensures Straight(fs + more, path)
    decreases |path|
  {
    hide FirstField, Seen, Fields, Disguised;
    FirstFieldConcat(fs, more, path[0]);
    var i := FirstField(fs, path[0]).value;
    assert (fs + more)[i] == fs[i];
    if |path| > 1 {
      PresentIsStraight(Fields(fs[i].val.members), (fs + more)[i + 1..], path[1..]);
    }
  }

  /** No string value begins like an object, all the way down. */
  predicate Undisguised(v: Value)
    decreases v
  {
    !Disguised(v) && (IsObject(v) ==> UndisguisedMembers(v.members))
  }

  predicate UndisguisedMembers(ms: Members)
    decreases ms
  {
    ms.Cons? ==> Undisguised(ms.val) && UndisguisedMembers(ms.tail)
  }

  lemma {:induction false} UndisguisedFields(ms: Members)
    requires UndisguisedMembers(ms)
    ensures forall k :: 0 <= k < |Fields(ms)| ==> Undisguised(Fields(ms)[k].val)
  {
    if ms.Cons? {
      UndisguisedFields(ms.tail);
    }
  }

  /** Without such strings every lookup is straight. */
  lemma {:induction false} UndisguisedIsStraight(fs: seq<Field>, path: seq<string>)
    requires path != [] && forall k :: 0 <= k < |fs| ==> Undisguised(fs[k].val)
    ensures Straight(fs, path)
    decreases |path|
  {
    hide FirstField, Fields, Disguised;
    var found := FirstField(fs, path[0]);
    if found.Some? && |path| > 1 {
      var v := fs[found.value].val;
      assert Undisguised(v);
      if IsObject(v) {
        UndisguisedFields(v.members);
        UndisguisedIsStraight(Fields(v.members) + fs[found.value + 1..], path[1..]);
      }
    }
  }

  // ---- where the two lookups part ----

  /** A search that leaves the enclosing objects: the parts still to be found, and the fields it goes on in. */
  datatype Exit = Exit(rest: seq<string>, outside: seq<Field>)

  /**
   * The first part of the path that its object does not have, if any, with the fields that follow the
   * enclosing objects, innermost first; `more` follows `fs` itself.
   */
  function Escape(fs: seq<Field>, more: seq<Field>, path: seq<string>): Option<Exit>
    requires path != []
    ensures Escape(fs, more, path).Some? ==> Escape(fs, more, path).value.rest != []
    decreases |path|
  {
    match FirstField(fs, path[0])
    case None => Some(Exit(path, more))
    case Some(i) =>
      if |path| == 1 || !IsObject(fs[i].val) then None
      else Escape(Fields(fs[i].val.members), fs[i + 1..] + more, path[1..])
  }

  lemma HeadFirst(fs: seq<Field>, more: seq<Field>)
    requires fs != []
    ensures fs == [fs[0]] + fs[1..] && fs + more == [fs[0]] + (fs[1..] + more)
  {
  }

  lemma {:induction false} FirstFieldAfter(fs: seq<Field>, more: seq<Field>, name: string)
    requires FirstField(fs, name).None?
    ensures FirstField(fs + more, name) ==
            match FirstField(more, name) case None => None case Some(i) => Some(|fs| + i)
  {
    if fs == [] {
      assert fs + more == more;
    } else {
      hide Counts, FirstField;
      FirstFieldHead(fs[0], fs[1..], name);
      FirstFieldHead(fs[0], fs[1..] + more, name);
      HeadFirst(fs, more);
      FirstFieldAfter(fs[1..], more, name);
    }
  }

  /** Fields without the first part of the path might as well not be there. */
  lemma FlatAfter(fs: seq<Field>, more: seq<Field>, path: seq<string>)
    requires path != [] && FirstField(fs, path[0]).None?
    ensures FlatLookup(fs + more, path) == FlatLookup(more, path)
  {
    hide FirstField, Seen, Fields, IsObject;
    FirstFieldAfter(fs, more, path[0]);
    var j := FirstField(more, path[0]);
    if j.Some? {
      PastFirst(fs, more, j.value);
    }
  }

  lemma PastFirst(fs: seq<Field>, more: seq<Field>, j: nat)
    requires j < |more|
    ensures (fs + more)[|fs| + j] == more[j] && (fs + more)[|fs| + j + 1..] == more[j + 1..]
  {
  }

  /** The code's lookup is the tree's until the path leaves its object; from there it is a search outside. */
  lemma {:induction false} FlatIsTreeOrOutside(fs: seq<Field>, more: seq<Field>, path: seq<string>)
    requires path != []
    ensures var e := Escape(fs, more, path);
            && (e.None? ==> FlatLookup(fs + more, path) == TreeLookup(fs, path))
            && (e.Some? ==>
                  && TreeLookup(fs, path).None?
                  && FlatLookup(fs + more, path) == FlatLookup(e.value.outside, e.value.rest))
    decreases |path|
  {
    hide FirstField, Seen, Fields;
    var found := FirstField(fs, path[0]);
    if found.None? {
      FlatAfter(fs, more, path);
    } else {
      FirstFieldConcat(fs, more, path[0]);
      var i := found.value;
      assert (fs + more)[i] == fs[i] && (fs + more)[i + 1..] == fs[i + 1..] + more;
      if |path| > 1 && IsObject(fs[i].val) {
        FlatIsTreeOrOutside(Fields(fs[i].val.members), fs[i + 1..] + more, path[1..]);
      }
    }
  }

  /** The first part names an object, that object lacks the second, and a later field beside it has it. */
  predicate Strays(fs: seq<Field>, a: string, b: string) {
    var i := FirstField(fs, a);
    && i.Some? && IsObject(fs[i.value].val)
    && FirstField(Fields(fs[i.value].val.members), b).None?
    && FirstField(fs[i.value + 1..], b).Some?
  }

  /** A path of two parts is answered wrongly in that case and in no other. */
  lemma TwoPartsExact(fs: seq<Field>, a: string, b: string)
    ensures FlatLookup(fs, [a, b]) == TreeLookup(fs, [a, b]) <==> !Strays(fs, a, b)
  {
    hide FirstField, Seen, Fields;
    FlatIsTreeOrOutside(fs, [], [a, b]);
    assert fs + [] == fs && [a, b][1..] == [b];
    var i := FirstField(fs, a);
    if i.Some? {
      assert fs[i.value + 1..] + [] == fs[i.value + 1..];
    } else {
      NothingInNothing([a, b]);
    }
  }

  lemma NothingInNothing(path: seq<string>)
    requires path != []
    ensures FlatLookup([], path).None?
  {
  }

  // ---- from text to tree ----

  function FieldsOf(spots: seq<Spot>): (fs: seq<Field>)
    ensures |fs| == |spots|
    ensures forall i :: 0 <= i < |spots| ==> fs[i] == spots[i].field
  {
    if spots == [] then [] else [spots[0].field] + FieldsOf(spots[1..])
  }

  lemma InnerFields(spots: seq<Spot>, i: nat, inner: seq<Spot>)
    requires i < |spots|
    ensures FieldsOf(inner + spots[i + 1..]) == FieldsOf(inner) + FieldsOf(spots)[i + 1..]
  {
    hide FieldsOf;
    var all := inner + spots[i + 1..];
    forall k | 0 <= k < |all| ensures FieldsOf(all)[k] == (FieldsOf(inner) + FieldsOf(spots)[i + 1..])[k] {
      assert all[k] == if k < |inner| then inner[k] else spots[i + 1 + (k - |inner|)];
    }
  }

  lemma {:induction false} FirstSpotIsFirstField(spots: seq<Spot>, name: string)
    ensures FirstSpot(spots, name) == FirstField(FieldsOf(spots), name)
  {
    if spots != [] {
      hide Counts, FirstField;
      FirstSpotIsFirstField(spots[1..], name);
      FirstFieldHead(spots[0].field, FieldsOf(spots[1..]), name);
    }
  }

  lemma FirstFieldHead(f: Field, rest: seq<Field>, name: string)
    ensures FirstField([f] + rest, name) ==
            if Counts(f) && f.key == name then Some(0)
            else match FirstField(rest, name) case None => None case Some(i) => Some(i + 1)
  {
    assert ([f] + rest)[1..] == rest;
    hide Counts;
  }

  lemma {:induction false} FieldsOfSpots(ms: Members, p: nat)
    ensures FieldsOf(Spots(ms, p)) == Fields(ms)
    decreases ms
  {
    if ms.Cons? {
      FieldsOfSpots(ms.tail, p + TailOffset(JsObject, ms));
      assert Spots(ms, p)[1..] == Spots(ms.tail, p + TailOffset(JsObject, ms));
    }
  }

  lemma {:induction false} HoldsDrop(s: string, p: nat, spots: seq<Spot>, i: nat)
    requires Holds(s, p, spots) && i < |spots|
    ensures Shown(s, spots[i]) && EndPos(spots[i]) <= |s| && p <= spots[i].at
    ensures Holds(s, EndPos(spots[i]), spots[i + 1..])
    decreases i
  {
    if i > 0 {
      HoldsDrop(s, EndPos(spots[0]), spots[1..], i - 1);
      assert spots[1..][i..] == spots[i + 1..];
    }
  }

  /** An object in the text shows its own fields and then those that follow it. */
  lemma ObjectHolds(s: string, p: nat, v: Value, rest: seq<Spot>)
    requires IsObject(v) && IsBlank(v.ws) && WholeMembers(v.members) && p <= |s| && At(s, p, Text(v))
    requires p + |Text(v)| <= |s| && Holds(s, p + |Text(v)|, rest)
    ensures p < |s| && s[p] == '{' && Holds(s, p, Spots(v.members, p + Inside(v)) + rest)
  {
    hide At, Text, MembersText, Holds, Shown, WholeMembers, IsBlank, Spots;
    BlockLayout(s, p, v);
    var q := p + Inside(v);
    var e := q + |MembersText(JsObject, v.members)|;
    HoldsEarlier(s, e, e + 1, rest);
    MembersHold(s, q, v.members, rest);
    BlankIsQuoteFree(s, p + 1, v.ws);
    HoldsEarlier(s, p, q, Spots(v.members, q) + rest);
  }

  lemma BlankIsQuoteFree(s: string, p: nat, w: string)
    requires p <= |s| && At(s, p, w) && IsBlank(w)
    ensures NoQuote(s, p, p + |w|)
  {
    QuoteFree(s, p, w);
  }

  lemma ShownObject(s: string, sp: Spot)
    requires Shown(s, sp) && IsObject(sp.field.val)
    ensures ValuePos(sp) <= |s| && At(s, ValuePos(sp), Text(sp.field.val))
    ensures SeenPos(sp) == ValuePos(sp) && EndPos(sp) == ValuePos(sp) + |Text(sp.field.val)|
  {
  }

  lemma LookupInObject(s: string, p: nat, spots: seq<Spot>, name: string)
    requires p < |s| && s[p] == '{' && Holds(s, p, spots)
    ensures var i := FirstField(FieldsOf(spots), name);
            Lookup(s, p, name) == if i.None? then None else Some(EntryAt(spots[i.value]))
  {
    EntriesOfFields(s, p, spots);
    FirstOfEntries(spots, name);
    FirstSpotIsFirstField(spots, name);
  }

  lemma {:induction false} NoObjectInText(s: string, p: nat, x: string, k: nat)
    requires p <= |s| && At(s, p, x) && k <= |x| && ObjectAt(x, k).None?
    requires p + |x| < |s| && s[p + |x|] == '"'
    ensures ObjectAt(s, p + k) == None
    decreases |x| - k
  {
    if k < |x| {
      assert s[p + k] == x[k];
      if x[k] == ' ' {
        NoObjectInText(s, p, x, k + 1);
      }
    }
  }

  /** Only an object's text is taken for one, and that of a string that begins like one. */
  lemma NotAnObject(s: string, sp: Spot)
    requires Shown(s, sp) && !IsObject(sp.field.val) && !Disguised(sp.field.val)
    ensures SeenPos(sp) <= |s| && ObjectAt(s, SeenPos(sp)) == None
  {
    var v := sp.field.val;
    hide Label, Balanced;
    if v.Str? {
      hide ObjectAt;
      NotInString(s, ValuePos(sp), v.text);
    } else {
      hide Text, Whole;
      NotAMark(s, ValuePos(sp), v);
    }
  }

  lemma NotInString(s: string, p: nat, text: string)
    requires p <= |s| && At(s, p, "\"" + text + "\"") && ObjectAt(text, 0).None?
    ensures p + 1 <= |s| && ObjectAt(s, p + 1) == None
  {
    hide ObjectAt, At;
    AtSplit3(s, p, "\"", text, "\"");
    AtChar(s, p + 1 + |text|, '"');
    NoObjectInText(s, p + 1, text, 0);
  }

  lemma NotAMark(s: string, p: nat, v: Value)
    requires p <= |s| && At(s, p, Core(v)) && Whole(v) && !v.Str? && !IsObject(v)
    ensures ObjectAt(s, p) == None
  {
    hide Text, Whole;
    CoreOpens(v);
    assert s[p + 0] == Core(v)[0];
  }

  lemma SplitStep(key: string, k: nat)
    requires k <= |key|
    ensures var path, delim := Split(key, k), StrChr(key, k, '.');
            && path[0] == key[k..delim] && (|path| == 1 <==> delim == |key|)
            && (delim < |key| ==> path[1..] == Split(key, delim + 1))
  {
    hide StrChr;
  }

  lemma ValueOfStep(key: string, k: nat, s: string, p: nat)
    requires k <= |key| && p <= |s|
    ensures var delim := StrChr(key, k, '.');
            var found := Lookup(s, p, key[k..delim]);
            ValueOf(key, k, s, p) ==
            if found.None? then None
            else if delim < |key| then ValueOf(key, delim + 1, s, found.value.at)
            else Some(s[found.value.at..found.value.at + found.value.len])
  {
    hide Lookup, StrChr;
  }

  lemma FlatStep(fs: seq<Field>, path: seq<string>)
    requires path != []
    ensures var found := FirstField(fs, path[0]);
            && (found.None? ==> FlatLookup(fs, path).None?)
            && (found.Some? && |path| == 1 ==> FlatLookup(fs, path) == Some(Seen(fs[found.value].val)))
            && (found.Some? && |path| > 1 ==>
                  var v := fs[found.value].val;
                  var inner := if IsObject(v) then Fields(v.members) + fs[found.value + 1..] else [];
                  && FlatLookup(fs, path) == (if IsObject(v) then FlatLookup(inner, path[1..]) else None)
                  && (Straight(fs, path) ==> if IsObject(v) then Straight(inner, path[1..]) else !Disguised(v)))
  {
    hide FirstField, Seen, Fields, Disguised;
  }

  /** Every value is well-formed all the way down. */
  predicate Deep(fs: seq<Field>) {
    forall i :: 0 <= i < |fs| ==> WellFormed(fs[i].val)
  }

  lemma {:induction false} FieldsDeep(ms: Members)
    requires WellFormedMembers(ms)
    ensures Deep(Fields(ms))
  {
    if ms.Cons? {
      hide WellFormed;
      FieldsDeep(ms.tail);
    }
  }

  /** The fields of an object and those behind it. */
  lemma InnerDeep(fs: seq<Field>, i: nat)
    requires Deep(fs) && i < |fs| && IsObject(fs[i].val)
    ensures var v := fs[i].val;
            IsBlank(v.ws) && WellFormedMembers(v.members) && Deep(Fields(v.members) + fs[i + 1..])
  {
    FieldsDeep(fs[i].val.members);
    hide WellFormedMembers, Balanced;
  }

  /** The code finds exactly what the flat lookup finds. */
  lemma {:induction false} ValueOfIsFlatLookup(key: string, k: nat, s: string, p: nat, spots: seq<Spot>)
    requires k <= |key| && p < |s| && s[p] == '{' && Holds(s, p, spots)
    requires Straight(FieldsOf(spots), Split(key, k)) && Deep(FieldsOf(spots))
    ensures ValueOf(key, k, s, p) == FlatLookup(FieldsOf(spots), Split(key, k))
    decreases |key| - k, 1
  {
    hide Holds, Shown, FirstField, Lookup, StrChr, Fields, Seen, FieldsOf, ValuePos, EndPos, SeenPos, Within;
    hide Split, Disguised, IsObject, ValueOf, FlatLookup, Straight, Deep;
    var delim := StrChr(key, k, '.');
    var name := key[k..delim];
    SplitStep(key, k);
    LookupInObject(s, p, spots, name);
    ValueOfStep(key, k, s, p);
    FlatStep(FieldsOf(spots), Split(key, k));
    var i := FirstField(FieldsOf(spots), name);
    if i.Some? {
      HoldsDrop(s, p, spots, i.value);
      if delim < |key| {
        StepInto(key, delim + 1, s, spots, i.value);
      } else {
        SeenAt(s, spots[i.value]);
      }
    }
  }

  lemma {:induction false} StepInto(key: string, k: nat, s: string, spots: seq<Spot>, i: nat)
    requires k <= |key| && i < |spots|
    requires Shown(s, spots[i]) && EndPos(spots[i]) <= |s| && Holds(s, EndPos(spots[i]), spots[i + 1..])
    requires Deep(FieldsOf(spots))
    requires var v := spots[i].field.val;
             if IsObject(v) then Straight(Fields(v.members) + FieldsOf(spots)[i + 1..], Split(key, k))
             else !Disguised(v)
    ensures SeenPos(spots[i]) <= |s|
    ensures var v := spots[i].field.val;
            ValueOf(key, k, s, SeenPos(spots[i])) ==
            if IsObject(v) then FlatLookup(Fields(v.members) + FieldsOf(spots)[i + 1..], Split(key, k)) else None
    decreases |key| - k, 2
  {
    hide Holds, Shown, FirstField, StrChr, Fields, Seen, Text, At, Split, FlatLookup, Spots, WellFormed;
    hide ValueOf, SeenPos, EndPos, Lookup, Inside, Straight, Disguised, Deep;
    var v := spots[i].field.val;
    if IsObject(v) {
      var p := ValuePos(spots[i]);
      ShownObject(s, spots[i]);
      InnerDeep(FieldsOf(spots), i);
      WellFormedMembersAreWhole(v.members);
      ObjectHolds(s, p, v, spots[i + 1..]);
      var inner := Spots(v.members, p + Inside(v)) + spots[i + 1..];
      FieldsOfSpots(v.members, p + Inside(v));
      InnerFields(spots, i, Spots(v.members, p + Inside(v)));
      ValueOfIsFlatLookup(key, k, s, p, inner);
    } else {
      NotAnObject(s, spots[i]);
      NoObjectNoValue(key, k, s, SeenPos(spots[i]));
    }
  }

  lemma NoObjectNoValue(key: string, k: nat, s: string, p: nat)
    requires k <= |key| && p <= |s| && ObjectAt(s, p) == None
    ensures ValueOf(key, k, s, p) == None
  {
  }

  // ---- whole documents ----

  /** An object text between spaces and a tail without quotes. */
  predicate IsDocument(pad: string, root: Value, trail: string) {
    && IsObject(root) && IsBlank(root.ws) && WellFormedMembers(root.members)
    && (forall k :: 0 <= k < |pad| ==> pad[k] == ' ') && '"' !in trail
  }

  /** The same, but only the values at the top level must be taken whole by the scanner. */
  predicate IsListing(pad: string, root: Value, trail: string) {
    && IsObject(root) && IsBlank(root.ws) && WholeMembers(root.members)
    && (forall k :: 0 <= k < |pad| ==> pad[k] == ' ') && '"' !in trail
  }

  lemma DocumentIsListing(pad: string, root: Value, trail: string)
    requires IsDocument(pad, root, trail)
    ensures IsListing(pad, root, trail)
  {
    WellFormedMembersAreWhole(root.members);
  }

  function RootSpots(pad: string, root: Value): seq<Spot>
    requires IsObject(root)
  {
    Spots(root.members, |pad| + Inside(root))
  }

  /** In a document no search leaves the text. */
  lemma DocumentStays(key: string, pad: string, root: Value, trail: string)
    requires IsObject(root) && '"' !in trail
    ensures KeyStays(key, 0, pad + Text(root) + trail, 0)
  {
    var s := pad + Text(root) + trail;
    var inside := pad + [Opening(JsObject)] + root.ws + MembersText(JsObject, root.members);
    hide MembersText, KeyStays;
    assert s == inside + [Closing(JsObject)] + trail;
    if trail == "" {
      assert s == inside + [Closing(JsObject)];
    } else {
      assert s[|s| - 1] == trail[|trail| - 1];
    }
    KeyStaysUnlessQuote(key, 0, s, 0);
  }

  lemma ListingHolds(pad: string, root: Value, trail: string)
    requires IsListing(pad, root, trail)
    ensures var s := pad + Text(root) + trail;
            && |pad| < |s| && s[|pad|] == '{' && ObjectAt(s, 0) == ObjectAt(s, |pad|) == Some(|pad|)
            && Holds(s, |pad|, RootSpots(pad, root))
  {
    hide At, Text, Holds, Whole, Spots, ObjectAt;
    var s := pad + Text(root) + trail;
    Layered(pad, Text(root), trail);
    ObjectHolds(s, |pad|, root, []);
    assert RootSpots(pad, root) + [] == RootSpots(pad, root);
    SpacesSkipped(s, 0, |pad|);
    SpacesSkipped(s, |pad|, |pad|);
  }

  lemma Layered(pad: string, x: string, trail: string)
    requires '"' !in trail && forall k :: 0 <= k < |pad| ==> pad[k] == ' '
    ensures var s := pad + x + trail;
            && At(s, |pad|, x) && Holds(s, |pad| + |x|, [])
            && forall k :: 0 <= k < |pad| ==> s[k] == ' '
  {
    var s := pad + x + trail;
    var e := |pad| + |x|;
    forall k | e <= k < |s| ensures s[k] != '"' {
      assert s[k] == trail[k - e];
    }
  }

  lemma {:induction false} SpacesSkipped(s: string, p: nat, q: nat)
    requires p <= q < |s| && s[q] == '{'
    requires forall k :: p <= k < q ==> s[k] == ' '
    ensures ObjectAt(s, p) == Some(q)
    decreases q - p
  {
    if p < q {
      SpacesSkipped(s, p + 1, q);
    }
  }

  lemma SameObject(key: string, k: nat, s: string, p: nat, q: nat)
    requires k <= |key| && p <= |s| && q <= |s| && ObjectAt(s, p) == ObjectAt(s, q)
    ensures ValueOf(key, k, s, p) == ValueOf(key, k, s, q)
  {
    hide Lookup, StrChr, ObjectAt;
    SameLookup(s, p, q, key[k..StrChr(key, k, '.')]);
  }

  lemma SameLookup(s: string, p: nat, q: nat, name: string)
    requires p <= |s| && q <= |s| && ObjectAt(s, p) == ObjectAt(s, q)
    ensures Lookup(s, p, name) == Lookup(s, q, name)
  {
    hide Entries, FirstEntry, ObjectAt;
  }

  /** For every key and every well-formed document the code's answer is the flat lookup. */
  lemma DocumentLookup(key: string, pad: string, root: Value, trail: string)
    requires IsDocument(pad, root, trail) && Straight(Fields(root.members), Split(key, 0))
    ensures ValueOf(key, 0, pad + Text(root) + trail, 0) == FlatLookup(Fields(root.members), Split(key, 0))
  {
    hide Holds, Text, FlatLookup, ValueOf, WellFormed, Split, Straight;
    var s := pad + Text(root) + trail;
    DocumentIsListing(pad, root, trail);
    ListingHolds(pad, root, trail);
    FieldsDeep(root.members);
    FieldsOfSpots(root.members, |pad| + Inside(root));
    ValueOfIsFlatLookup(key, 0, s, |pad|, RootSpots(pad, root));
    SameObject(key, 0, s, 0, |pad|);
  }

  /** A path that the tree has is found, with the text of the first value there. */
  lemma PresentPathFound(key: string, pad: string, root: Value, trail: string)
    requires IsDocument(pad, root, trail)
    requires TreeLookup(Fields(root.members), Split(key, 0)).Some?
    ensures ValueOf(key, 0, pad + Text(root) + trail, 0) == TreeLookup(Fields(root.members), Split(key, 0))
  {
    hide Text, FlatLookup, TreeLookup, ValueOf, Split, Fields, WellFormed;
    PresentIsStraight(Fields(root.members), [], Split(key, 0));
    assert Fields(root.members) + [] == Fields(root.members);
    DocumentLookup(key, pad, root, trail);
    PresentPathsAgree(Fields(root.members), [], Split(key, 0));
  }

  /**
   * For every key and every well-formed document: the answer is the tree's exactly when the path does not leave
   * its object, or leaves it for fields in which the rest of it is not found.
   */
  lemma PathExact(key: string, pad: string, root: Value, trail: string)
    requires IsDocument(pad, root, trail) && Straight(Fields(root.members), Split(key, 0))
    ensures var fs, path := Fields(root.members), Split(key, 0);
            var answer := ValueOf(key, 0, pad + Text(root) + trail, 0);
            var e := Escape(fs, [], path);
            && (answer == TreeLookup(fs, path) <==> e.None? || FlatLookup(e.value.outside, e.value.rest).None?)
            && (e.Some? ==> TreeLookup(fs, path).None? && answer == FlatLookup(e.value.outside, e.value.rest))
  {
    hide Text, FlatLookup, TreeLookup, ValueOf, Split, Fields, WellFormed, Escape, FirstField, Straight;
    DocumentLookup(key, pad, root, trail);
    FlatIsTreeOrOutside(Fields(root.members), [], Split(key, 0));
    assert Fields(root.members) + [] == Fields(root.members);
  }

  /** For a key of two parts, such as "data.control", a caller can tell from the document. */
  lemma TwoPartKeyExact(a: string, b: string, pad: string, root: Value, trail: string)
    requires IsDocument(pad, root, trail) && '.' !in a && '.' !in b && Straight(Fields(root.members), [a, b])
    ensures ValueOf(a + "." + b, 0, pad + Text(root) + trail, 0) == TreeLookup(Fields(root.members), [a, b]) <==>
            !Strays(Fields(root.members), a, b)
  {
    SplitJoin("", [a, b]);
    assert [a, b][1..] == [b] && "" + Join([a, b]) == a + "." + b;
    hide Text, FlatLookup, TreeLookup, ValueOf, Split, Fields, WellFormed, Strays, FirstField, Straight;
    DocumentLookup(a + "." + b, pad, root, trail);
    TwoPartsExact(Fields(root.members), a, b);
  }

  /** Without a dot in the key the answer is the tree's, found or not. */
  lemma PlainKeyExact(key: string, pad: string, root: Value, trail: string)
    requires IsListing(pad, root, trail) && '.' !in key
    ensures var i := FirstField(Fields(root.members), key);
            ValueOf(key, 0, pad + Text(root) + trail, 0) ==
            if i.None? then None else Some(Seen(Fields(root.members)[i.value].val))
  {
    hide Holds, Text, ValueOf, Whole, Fields, FirstField, Lookup, StrChr, ObjectAt, Spots, Shown, Seen, FieldsOf;
    var s := pad + Text(root) + trail;
    var spots := RootSpots(pad, root);
    ListingHolds(pad, root, trail);
    FieldsOfSpots(root.members, |pad| + Inside(root));
    LookupInObject(s, |pad|, spots, key);
    NoDot(key);
    ValueOfStep(key, 0, s, |pad|);
    SameObject(key, 0, s, 0, |pad|);
    var i := FirstField(FieldsOf(spots), key);
    if i.Some? {
      HoldsDrop(s, |pad|, spots, i.value);
      SeenAt(s, spots[i.value]);
    }
  }

  lemma NoDot(key: string)
    requires '.' !in key
    ensures StrChr(key, 0, '.') == |key| && key[0..|key|] == key
  {
    StrChrSkip(key, 0, |key|, '.');
  }

  /** A member as the loop shows it: its key, the text of its value and its kind. */
  datatype Sight = Sight(key: string, text: string, kind: Kind)

  function Sights(fs: seq<Field>): seq<Sight> {
    if fs == [] then []
    else (if Counts(fs[0]) then [Sight(fs[0].key, Seen(fs[0].val), KindOfValue(fs[0].val))] else []) + Sights(fs[1..])
  }

  function SightsOf(s: string, es: seq<Entry>): seq<Sight> {
    if es == [] then [] else [Sight(es[0].key, Slice(s, es[0].at, es[0].len), es[0].kind)] + SightsOf(s, es[1..])
  }

  function Slice(s: string, at: nat, len: nat): string {
    if at + len <= |s| then s[at..at + len] else ""
  }

  lemma {:induction false} SightsInOrder(s: string, p: nat, spots: seq<Spot>)
    requires Holds(s, p, spots)
    ensures SightsOf(s, EntriesAt(spots)) == Sights(FieldsOf(spots))
    decreases |spots|
  {
    if spots == [] {
      assert SightsOf(s, []) == [];
    } else {
      hide Holds, Shown, Seen, Counts, KindOfValue, SeenPos, EndPos, SightsOf, EntryAt, Slice;
      HoldsDrop(s, p, spots, 0);
      SightsInOrder(s, EndPos(spots[0]), spots[1..]);
      SightOfField(s, spots[0], EntriesAt(spots[1..]));
      assert FieldsOf(spots)[1..] == FieldsOf(spots[1..]);
    }
  }

  lemma SightOfField(s: string, sp: Spot, es: seq<Entry>)
    requires Shown(s, sp)
    ensures SightsOf(s, [EntryAt(sp)] + es) ==
            [Sight(sp.field.key, Seen(sp.field.val), KindOfValue(sp.field.val))] + SightsOf(s, es)
    ensures [] + es == es && SightsOf(s, []) == []
  {
    hide Shown, Seen, SeenPos;
    SeenAt(s, sp);
    assert ([EntryAt(sp)] + es)[1..] == es;
  }

  /** The member loop yields exactly the top-level members, in order. */
  lemma MemberLoopAgrees(pad: string, root: Value, trail: string)
    requires IsListing(pad, root, trail)
    ensures var s := pad + Text(root) + trail;
            && |pad| <= |s| && ObjectAt(s, 0) == Some(|pad|)
            && SightsOf(s, Entries(s, |pad|)) == Sights(Fields(root.members))
  {
    hide Holds, Text, SightsOf, Sights, IsBlank, WholeMembers, Entries, EntriesAt, ObjectAt, Fields, Spots, FieldsOf;
    var s := pad + Text(root) + trail;
    ListingHolds(pad, root, trail);
    EntriesOfFields(s, |pad|, RootSpots(pad, root));
    SightsInOrder(s, |pad|, RootSpots(pad, root));
    FieldsOfSpots(root.members, |pad| + Inside(root));
  }

  /** An object or array handed over has matching marks inside. */
  predicate Matched(sight: Sight) {
    sight.kind.JsObject? || sight.kind.JsArray? ==>
      |sight.text| >= 2 && Balanced(sight.text[1..|sight.text| - 1], sight.kind)
  }

  lemma HitMatched(s: string, p: nat)
    requires p <= |s| && Next(s, p).Member? && Next(s, p).valLen > 0
    ensures var hit := Next(s, p); Matched(Sight("", Slice(s, hit.valAt, hit.valLen), hit.kind))
  {
    hide Next, Balanced, ValueLen;
    var hit := Next(s, p);
    if hit.kind.JsObject? || hit.kind.JsArray? {
      HitMeasured(s, p);
      MeasuredIsBalanced(s, hit.valAt, hit.kind);
      var text := Slice(s, hit.valAt, hit.valLen);
      assert text[1..|text| - 1] == s[hit.valAt + 1..hit.valAt + hit.valLen - 1];
    }
  }

  lemma HitMeasured(s: string, p: nat)
    requires p <= |s| && Next(s, p).Member? && !Next(s, p).kind.JsString?
    ensures var hit := Next(s, p); hit.valAt < |s| && hit.valLen == ValueLen(s, hit.valAt, hit.kind)
  {
    hide StrChr, ValueStart, KindOf, ValueLen;
  }

  lemma {:induction false} SightsMatched(s: string, p: nat)
    requires p <= |s|
    ensures forall x :: x in SightsOf(s, Entries(s, p)) ==> Matched(x)
    decreases |s| - p
  {
    hide Next, Matched, Entries, SightsOf;
    var hit := Next(s, p);
    if p < |s| && hit.Member? {
      var rest := if hit.next <= |s| then Entries(s, hit.next) else [];
      EntriesStep(s, p);
      if hit.next <= |s| {
        SightsMatched(s, hit.next);
      } else {
        NoSights(s);
      }
      if hit.valLen > 0 {
        HitMatched(s, p);
        MatchedAnyKey(Sight("", Slice(s, hit.valAt, hit.valLen), hit.kind));
      }
      SightsReported(s, hit, rest);
    } else {
      NoEntries(s, p);
      NoSights(s);
    }
  }

  lemma NoSights(s: string)
    ensures SightsOf(s, []) == []
  {
  }

  lemma NoEntries(s: string, p: nat)
    requires p <= |s| && (p == |s| || Next(s, p).Miss?)
    ensures Entries(s, p) == []
  {
  }

  lemma MatchedAnyKey(sight: Sight)
    requires Matched(sight)
    ensures forall key: string :: Matched(sight.(key := key))
  {
    hide Balanced;
  }

  lemma EntriesStep(s: string, p: nat)
    requires p < |s| && Next(s, p).Member?
    ensures var hit := Next(s, p);
            Entries(s, p) == Reported(s, hit) + if hit.next <= |s| then Entries(s, hit.next) else []
  {
    hide Next;
  }

  lemma SightsReported(s: string, hit: Hit, rest: seq<Entry>)
    requires hit.Member? && hit.keyAt + hit.keyLen <= |s|
    ensures forall x :: x in SightsOf(s, Reported(s, hit) + rest) ==>
              x in SightsOf(s, rest)
              || (hit.valLen > 0 && x == Sight("", Slice(s, hit.valAt, hit.valLen), hit.kind).(key := x.key))
  {
    if Reported(s, hit) != [] {
      assert (Reported(s, hit) + rest)[1..] == rest;
    } else {
      assert Reported(s, hit) + rest == rest;
    }
  }

  /** A grammatical object with no empty key at its top level. */
  predicate IsObjectText(pad: string, root: Value, trail: string) {
    && IsObject(root) && Grammar(root) && NamedMembers(root.members)
    && (forall k :: 0 <= k < |pad| ==> pad[k] == ' ') && '"' !in trail
  }

  predicate NamedMembers(ms: Members) {
    ms.Cons? ==> ms.key != "" && NamedMembers(ms.tail)
  }

  lemma {:induction false} WholeIfMatched(ms: Members)
    requires GrammarMembers(ms) && NamedMembers(ms) && forall x :: x in Sights(Fields(ms)) ==> Matched(x)
    ensures WholeMembers(ms)
  {
    if ms.Cons? {
      hide IsBlank, Grammar, Whole, Matched, Counts, Seen;
      SightsTail(ms);
      WholeIfMatched(ms.tail);
      WholeIfSeen(ms);
    }
  }

  lemma SightsTail(ms: Members)
    requires ms.Cons?
    ensures Sights(Fields(ms)) ==
            (if Counts(Field(ms.key, ms.val)) then [Sight(ms.key, Seen(ms.val), KindOfValue(ms.val))] else [])
            + Sights(Fields(ms.tail))
  {
    hide Counts, Seen, KindOfValue;
    assert Fields(ms)[1..] == Fields(ms.tail);
  }

  lemma WholeIfSeen(ms: Members)
    requires ms.Cons? && Grammar(ms.val) && ms.key != ""
    requires Counts(Field(ms.key, ms.val)) ==> Matched(Sight(ms.key, Seen(ms.val), KindOfValue(ms.val)))
    ensures Whole(ms.val)
  {
    var v := ms.val;
    if v.Block? {
      BlockText(v);
      hide InsideText, Balanced, Text, GrammarMembers;
      assert Seen(v) == Text(v);
      assert Text(v)[1..|Text(v)| - 1] == InsideText(v);
    }
  }

  /** It yields exactly the top-level members if and only if in each of their values the marks match. */
  lemma MemberLoopExact(pad: string, root: Value, trail: string)
    requires IsObjectText(pad, root, trail)
    ensures var s := pad + Text(root) + trail;
            && |pad| <= |s|
            && (SightsOf(s, Entries(s, |pad|)) == Sights(Fields(root.members)) <==> WholeMembers(root.members))
  {
    hide SightsOf, Sights, Text, Entries, WholeMembers, Fields, Matched, GrammarMembers, NamedMembers, ObjectAt, Whole;
    var s := pad + Text(root) + trail;
    SightsMatched(s, |pad|);
    if WholeMembers(root.members) {
      MemberLoopAgrees(pad, root, trail);
    }
    if SightsOf(s, Entries(s, |pad|)) == Sights(Fields(root.members)) {
      WholeIfMatched(root.members);
    }
  }

  function Join(path: seq<string>): string
    requires path != []
  {
    if |path| == 1 then path[0] else path[0] + "." + Join(path[1..])
  }

  lemma SplitPart(key: string, p: nat, e: nat)
    requires p <= e <= |key| && (e < |key| ==> key[e] == '.') && forall k :: p <= k < e ==> key[k] != '.'
    ensures Split(key, p) == [key[p..e]] + if e < |key| then Split(key, e + 1) else []
  {
    StrChrSkip(key, p, e, '.');
  }

  lemma SplitHead(pre: string, x: string, rest: string)
    requires '.' !in x
    ensures Split(pre + x, |pre|) == [x]
    ensures Split(pre + x + "." + rest, |pre|) == [x] + Split(pre + x + "." + rest, |pre + x + "."|)
  {
    hide Split;
    var key, longer := pre + x, pre + x + "." + rest;
    assert key[|pre|..|key|] == x && longer[|pre|..|key|] == x;
    SplitPart(key, |pre|, |key|);
    SplitPart(longer, |pre|, |key|);
    assert [x] + [] == [x];
  }

  /** Every path of dot-free names is the split of its dotted key. */
  lemma {:induction false} SplitJoin(pre: string, path: seq<string>)
    requires path != [] && forall i :: 0 <= i < |path| ==> '.' !in path[i]
    ensures Split(pre + Join(path), |pre|) == path
    decreases |path|
  {
    hide Split;
    if |path| == 1 {
      SplitHead(pre, path[0], "");
    } else {
      var pre' := pre + path[0] + ".";
      SplitHead(pre, path[0], Join(path[1..]));
      SplitJoin(pre', path[1..]);
      assert pre + Join(path) == pre' + Join(path[1..]);
    }
  }

  /** A path the tree does not have may still be answered, from a field after the nested object. */
  lemma AbsentPathMayBeAnswered()
    ensures var root := Runaway();
            && IsDocument("", root, "")
            && TreeLookup(Fields(root.members), Split("a.y", 0)).None?
            && ValueOf("a.y", 0, "" + Text(root) + "", 0) == Some("2")
  {
    RunawayFields();
    SplitJoin("", ["a", "y"]);
    assert "" + Join(["a", "y"]) == "a.y";
    hide Text, Fields, ValueOf, Split, WellFormed, FlatLookup, TreeLookup, Counts, IsObject, Straight, FirstField;
    RunawayLookups(Fields(Runaway().members));
    DocumentLookup("a.y", "", Runaway(), "");
  }

  lemma RunawayLookups(fs: seq<Field>)
    requires |fs| == 2 && fs[0].key == "a" && Counts(fs[0]) && IsObject(fs[0].val) && fs[1] == Field("y", Num("2", ""))
    requires Fields(fs[0].val.members) == [Field("x", Num("1", ""))]
    ensures TreeLookup(fs, ["a", "y"]).None? && FlatLookup(fs, ["a", "y"]) == Some("2") && Straight(fs, ["a", "y"])
  {
    hide Fields;
    var inner := Fields(fs[0].val.members);
    assert inner[1..] == [];
    assert FirstField(inner, "y") == None;
    assert (inner + fs[1..])[1..] == [fs[1]];
    assert FirstField(inner + fs[1..], "y") == Some(1);
    assert ["a", "y"][1..] == ["y"];
  }

  /** A string that begins with a brace is taken for an object: in {"a":"{","b":1} the key "a.," is answered. */
  lemma StringTakenForObject(key: string, s: string)
    requires key == "a.," && s == "{\"a\":\"{\",\"b\":1}"
    ensures ValueOf(key, 0, s, 0) == Some("1")
  {
    hide Lookup, StrChr, ValueOf;
    DottedKey(key);
    StringFound(s);
    QuotesSwapped(s);
    ValueOfStep(key, 0, s, 0);
    ValueOfStep(key, 2, s, 6);
    assert s[13..14] == "1";
  }

  lemma DottedKey(key: string)
    requires key == "a.,"
    ensures StrChr(key, 0, '.') == 1 && StrChr(key, 2, '.') == 3 && key[0..1] == "a" && key[2..3] == ","
  {
  }

  /** The lookup of a name that is found at once. */
  lemma FoundAtOnce(s: string, p: nat, q: nat, q': nat, v: nat, name: string)
    requires p < |s| && s[p] == '{' && StrChr(s, p, '"') == q < q' < v < |s| && StrChr(s, q + 1, '"') == q'
    requires ValueStart(s, StrChr(s, q', ':')) == v && KindOf(s[v]).Some? && s[q + 1..q'] == name != ""
    requires MemberAt(s, q + 1, q' - (q + 1), v).valLen > 0
    ensures Lookup(s, p, name) == Some(EntryOf(s, MemberAt(s, q + 1, q' - (q + 1), v)))
  {
    hide StrChr, ValueStart, KindOf, MemberAt, ValueLen;
    NextIs(s, p, q, q', v);
    hide Next;
    FirstHere(s, p, name);
  }

  lemma FirstHere(s: string, p: nat, name: string)
    requires p < |s| && s[p] == '{' && Next(s, p).Member? && IsNamed(s, Next(s, p), name)
    ensures Lookup(s, p, name) == Some(EntryOf(s, Next(s, p)))
  {
    hide Next;
    EntriesStep(s, p);
    assert ObjectAt(s, p) == Some(p);
    var rest := if Next(s, p).next <= |s| then Entries(s, Next(s, p).next) else [];
    assert Entries(s, p) == [EntryOf(s, Next(s, p))] + rest;
  }

  lemma StringFound(s: string)
    requires s == "{\"a\":\"{\",\"b\":1}"
    ensures Lookup(s, 0, "a").Some? && Lookup(s, 0, "a").value.at == 6
  {
    assert s[0] == '{' && s[1] == '"' && s[2] == 'a' && s[3] == '"' && s[4] == ':' && s[5] == '"' && s[6] == '{';
    assert |s| == 15 && s[7] == '"' && s[2..3] == "a";
    assert StrChr(s, 0, '"') == 1 && StrChr(s, 2, '"') == 3 && StrChr(s, 3, ':') == 4;
    assert ValueStart(s, 4) == ValueStart(s, 5) == 5;
    assert CloseAt(s, 6, 0, JsString) == CloseAt(s, 7, 0, JsString) == 7;
    hide StrChr, ValueStart, CloseAt;
    FoundAtOnce(s, 0, 1, 3, 5, "a");
  }

  /** From inside the string its closing quote looks like the opening one of a key. */
  lemma QuotesSwapped(s: string)
    requires s == "{\"a\":\"{\",\"b\":1}"
    ensures Lookup(s, 6, ",").Some? && Lookup(s, 6, ",").value.at == 13 && Lookup(s, 6, ",").value.len == 1
  {
    assert s[6] == '{' && s[7] == '"' && s[8] == ',' && s[9] == '"' && s[10] == 'b' && s[11] == '"' && s[12] == ':';
    assert |s| == 15 && s[13] == '1' && s[14] == '}' && s[8..9] == ",";
    assert StrChr(s, 6, '"') == 7 && StrChr(s, 8, '"') == 9;
    assert StrChr(s, 9, ':') == StrChr(s, 11, ':') == 12;
    assert ValueStart(s, 12) == ValueStart(s, 13) == 13;
    assert NumberEnd(s, 14) == 14;
    hide StrChr, ValueStart, NumberEnd;
    FoundAtOnce(s, 6, 7, 9, 13, ",");
  }

  // ---- one value of each kind, by hand ----

  /** The text {"k":value} with something behind, whose value opens at 5. */
  lemma OneValue(s: string, kind: Kind, len: nat)
    requires |s| > 5 && s[0] == '{' && s[1] == '"' && s[2] == 'k' && s[3] == '"' && s[4] == ':'
    requires KindOf(s[5]) == Some(kind) && !kind.JsString? && ValueLen(s, 5, kind) == len > 0
    ensures ValueOf("k", 0, s, 0) == Some(s[5..5 + len])
  {
    hide StrChr, ValueStart, KindOf, ValueLen, Lookup, ValueOf;
    KeyAt(s);
    FoundAtOnce(s, 0, 1, 3, 5, "k");
    NoDot("k");
    ValueOfStep("k", 0, s, 0);
  }

  lemma KeyAt(s: string)
    requires |s| > 5 && s[0] == '{' && s[1] == '"' && s[2] == 'k' && s[3] == '"' && s[4] == ':' && KindOf(s[5]).Some?
    ensures StrChr(s, 0, '"') == 1 && StrChr(s, 2, '"') == 3 && StrChr(s, 3, ':') == 4
    ensures ValueStart(s, 4) == 5 && s[2..3] == "k"
  {
    assert KindOf(':').None? && ValueStart(s, 5) == 5;
  }

  lemma ArrayRead(s: string)
    requires s == "{\"k\":[1,[2]]}"
    ensures ValueOf("k", 0, s, 0) == Some("[1,[2]]")
  {
    hide ValueOf;
    var x := "1,[2]";
    assert s[5] == '[' && At(s, 6, x) && s[11] == ']' && s[5..12] == "[1,[2]]";
    assert Walk(x, 0, JsArray) == Some(0) by {
      WalkPlain("1,", 0, JsArray);
      WalkConcat("1,", "[2]", 0, JsArray);
      WalkPlain("2", 1, JsArray);
      WalkMarks(JsArray, "2", 0, JsArray);
      assert [Opening(JsArray)] + "2" + [Closing(JsArray)] == "[2]" && "1," + "[2]" == x;
    }
    CloseAtWalk(s, 6, x, 0, JsArray);
    hide Walk;
    OneValue(s, JsArray, 7);
  }

  lemma ObjectRead(s: string)
    requires s == "{\"k\":{\"a\":{}}}"
    ensures ValueOf("k", 0, s, 0) == Some("{\"a\":{}}")
  {
    hide ValueOf;
    var x := "\"a\":{}";
    assert s[5] == '{' && At(s, 6, x) && s[12] == '}' && s[5..13] == "{\"a\":{}}";
    assert Walk(x, 0, JsObject) == Some(0) by {
      WalkPlain("\"a\":", 0, JsObject);
      WalkConcat("\"a\":", "{}", 0, JsObject);
      WalkMarks(JsObject, "", 0, JsObject);
      assert [Opening(JsObject)] + "" + [Closing(JsObject)] == "{}" && "\"a\":" + "{}" == x;
    }
    CloseAtWalk(s, 6, x, 0, JsObject);
    hide Walk;
    OneValue(s, JsObject, 8);
  }

  lemma NumberReadInText(s: string)
    requires s == "{\"k\":-1.5e3}"
    ensures ValueOf("k", 0, s, 0) == Some("-1.5")
  {
    hide ValueOf;
    assert s[5] == '-' && s[6] == '1' && s[7] == '.' && s[8] == '5' && s[9] == 'e' && s[5..9] == "-1.5";
    NumberEndOver(s, 6, 9);
    OneValue(s, JsNumber, 4);
  }

  lemma LiteralRead(s: string, text: string, kind: Kind)
    requires s == "{\"k\":" + text + "}" && text in {"true", "TRUE", "false", "FALSE", "null", "NULL"}
    requires kind == if text in {"null", "NULL"} then JsNull else JsBoolean
    ensures ValueOf("k", 0, s, 0) == Some(text)
  {
    hide ValueOf;
    var n := |text|;
    assert s[0] == '{' && s[1] == '"' && s[2] == 'k' && s[3] == '"' && s[4] == ':';
    assert s[5] == text[0] && s[5..5 + n] == text;
    assert At(s, 5, text) by {
      forall k | 0 <= k < n ensures s[5 + k] == text[k] {
      }
    }
    MeasureLiteral(s, 5, text);
    OneValue(s, kind, n);
  }

  /** {"a":{"x":1},"y":2} */
  function Runaway(): Value {
    var inner := Block(JsObject, "", Cons("", "x", "", "", Num("1", ""), "", Nil));
    Block(JsObject, "", Cons("", "a", "", "", inner, "", Cons("", "y", "", "", Num("2", ""), "", Nil)))
  }

  lemma RunawayFields()
    ensures var root := Runaway();
            && IsDocument("", root, "")
            && Fields(root.members) == [Field("a", root.members.val), Field("y", Num("2", ""))]
            && Counts(Field("a", root.members.val))
            && IsObject(root.members.val)
            && Fields(root.members.val.members) == [Field("x", Num("1", ""))]
  {
    var root := Runaway();
    var last := root.members.tail;
    assert Fields(last.tail) == [];
    assert Fields(last) == [Field("y", Num("2", ""))];
    assert Fields(root.members.val.members.tail) == [];
    assert GrammarMembers(last.tail) && GrammarMembers(last) && GrammarMembers(root.members);
    assert CleanInsideMembers(last.tail) && CleanInsideMembers(last);
    CleanMembersWellFormed(root.members);
  }
}
