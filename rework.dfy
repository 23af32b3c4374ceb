/**
 * Renaming the fields referenced by showon attributes inside sub-forms.
 *
 * The plugin records, for every sub-form field Joomla creates, the temporary
 * name it was given ("field123") and the name declared for the custom field
 * ("foobar") in an ordered PHP array. Before a sub-form is attached to the
 * form, the showon attributes of its fields are rewritten with that map.
 */
module Rework {
  import opened Strings
  import opened ShowOn

  /** customFieldMap: an ordered association list from temporary name (key) to
      declared name (value); PHP arrays keep insertion order. */
  type FieldMap = seq<(string, string)>

  predicate UniqueKeys(m: FieldMap)
  {
    forall i, j :: 0 <= i < j < |m| ==> m[i].0 != m[j].0
  }

  function Keys(m: FieldMap): (ks: seq<string>)
    ensures |ks| == |m| && forall i :: 0 <= i < |m| ==> ks[i] == m[i].0
  {
    seq(|m|, i requires 0 <= i < |m| => m[i].0)
  }

  /** $map[$key] ?? null */
  function Lookup(m: FieldMap, key: string): (r: Option<string>)
    ensures r.Some? ==> exists i :: 0 <= i < |m| && m[i] == (key, r.value)
    ensures r.None? ==> forall i :: 0 <= i < |m| ==> m[i].0 != key
  {
    if |m| == 0 then None
    else if m[0].0 == key then Some(m[0].1)
    else Lookup(m[1..], key)
  }

  /** $map[$key] = $value: overwrite in place when the key is there, append otherwise. */
  function Put(m: FieldMap, key: string, value: string): FieldMap
  {
    if |m| == 0 then [(key, value)]
    else if m[0].0 == key then [(key, value)] + m[1..]
    else [m[0]] + Put(m[1..], key, value)
  }

  /** After the assignment the key maps to the new value and every other key
      keeps its entry. */
  lemma {:induction false} PutLookup(m: FieldMap, key: string, value: string)
    ensures Lookup(Put(m, key, value), key) == Some(value)
    ensures forall k :: k != key ==> Lookup(Put(m, key, value), k) == Lookup(m, k)
  {
    if |m| > 0 && m[0].0 != key {
      PutLookup(m[1..], key, value);
      assert Put(m, key, value)[1..] == Put(m[1..], key, value);
    }
  }

  /** The keys keep their order; a new key goes last. */
  lemma {:induction false} PutKeys(m: FieldMap, key: string, value: string)
    ensures Keys(Put(m, key, value)) == if key in Keys(m) then Keys(m) else Keys(m) + [key]
  {
    if |m| == 0 {
    } else if m[0].0 == key {
      assert Keys(Put(m, key, value)) == Keys(m);
    } else {
      PutKeys(m[1..], key, value);
      assert Keys(m) == [m[0].0] + Keys(m[1..]);
      assert Keys(Put(m, key, value)) == [m[0].0] + Keys(Put(m[1..], key, value));
    }
  }

  /** Keys stay unique. */
  lemma PutUnique(m: FieldMap, key: string, value: string)
    requires UniqueKeys(m)
    ensures UniqueKeys(Put(m, key, value))
  {
    var r := Put(m, key, value);
    PutKeys(m, key, value);
    forall i, j | 0 <= i < j < |r| ensures r[i].0 != r[j].0 {
      assert r[i].0 == Keys(r)[i] && r[j].0 == Keys(r)[j];
      if key !in Keys(m) && j == |m| {
        assert Keys(m)[i] == m[i].0;
      } else {
        assert Keys(m)[i] == m[i].0 && Keys(m)[j] == m[j].0;
      }
    }
  }

  /** array_search($value, $map): the key of the first entry holding `value`. */
  function Search(m: FieldMap, value: string): (r: Option<string>)
    ensures r.Some? ==> exists i :: 0 <= i < |m| && m[i] == (r.value, value) &&
                                   forall j :: 0 <= j < i ==> m[j].1 != value
    ensures r.None? ==> forall i :: 0 <= i < |m| ==> m[i].1 != value
  {
    if |m| == 0 then None
    else if m[0].1 == value then Some(m[0].0)
    else
      var r := Search(m[1..], value);
      if r.Some? then
        var i :| 0 <= i < |m| - 1 && m[1..][i] == (r.value, value) &&
                 forall j :: 0 <= j < i ==> m[1..][j].1 != value;
        assert m[i + 1] == (r.value, value);
        r
      else r
  }

  /** The delimiter reworkShowOn splits at: with both kinds present, the kind
      whose first occurrence comes LATER; otherwise the one that is present. */
  function Delimiter(s: string): (d: string)
    requires Contains(s, AndMark) || Contains(s, OrMark)
    ensures (d == AndMark || d == OrMark) && Contains(s, d)
  {
    var andPos := IndexOf(s, AndMark);
    var orPos := IndexOf(s, OrMark);
    if (andPos.Some? && orPos.Some? && andPos.value > orPos.value) || orPos.None? then AndMark else OrMark
  }

  /** The text as the rewriter consumes it: the segments cut off before each
      chosen delimiter, the delimiters themselves, and the remainder. */
  datatype Stream = Stream(controls: seq<string>, delims: seq<string>, rest: string)

  function StreamOf(s: string): (r: Stream)
    ensures |r.controls| == |r.delims|
    ensures !Contains(r.rest, AndMark) && !Contains(r.rest, OrMark)
    ensures forall i :: 0 <= i < |r.delims| ==> r.delims[i] == AndMark || r.delims[i] == OrMark
    decreases |s|
  {
    if Contains(s, AndMark) || Contains(s, OrMark) then
      var d := Delimiter(s);
      var parts := SplitOnce(s, d);
      var tail := StreamOf(parts.1);
      Stream([parts.0] + tail.controls, [d] + tail.delims, tail.rest)
    else Stream([], [], s)
  }

  /** The controls followed by their delimiters, then the remainder. */
  function Interleave(controls: seq<string>, delims: seq<string>, rest: string): string
    requires |controls| == |delims|
  {
    if |controls| == 0 then rest
    else controls[0] + delims[0] + Interleave(controls[1..], delims[1..], rest)
  }

  /** Consuming the text loses nothing: putting each delimiter back after its
      segment and appending the remainder gives the input. */
  lemma {:induction false} StreamLossless(s: string)
    ensures Interleave(StreamOf(s).controls, StreamOf(s).delims, StreamOf(s).rest) == s
    decreases |s|
  {
    if Contains(s, AndMark) || Contains(s, OrMark) {
      var d := Delimiter(s);
      var parts := SplitOnce(s, d);
      StreamLossless(parts.1);
      var r := StreamOf(s);
      assert r.controls[1..] == StreamOf(parts.1).controls;
      assert r.delims[1..] == StreamOf(parts.1).delims;
    }
  }

  /** The first cut: at the first occurrence of the chosen delimiter. With one
      kind present that kind is chosen; with both, the one occurring later. */
  lemma StreamFirstCut(s: string)
    requires Contains(s, AndMark) || Contains(s, OrMark)
    ensures StreamOf(s).delims[0] == Delimiter(s)
    ensures StreamOf(s).controls[0] == s[..IndexOf(s, Delimiter(s)).value]
    ensures !Contains(s, OrMark) ==> Delimiter(s) == AndMark
    ensures !Contains(s, AndMark) ==> Delimiter(s) == OrMark
    ensures Contains(s, AndMark) && Contains(s, OrMark) ==>
      (Delimiter(s) == AndMark <==> IndexOf(s, AndMark).value > IndexOf(s, OrMark).value)
  {
  }

  lemma AppendAssoc<T>(a: seq<T>, b: T, c: seq<T>)
    ensures a + ([b] + c) == (a + [b]) + c
  {
  }

  /** One step of the consumption. */
  lemma StreamStep(s: string)
    requires Contains(s, AndMark) || Contains(s, OrMark)
    ensures StreamOf(s).controls == [SplitOnce(s, Delimiter(s)).0] + StreamOf(SplitOnce(s, Delimiter(s)).1).controls
    ensures StreamOf(s).rest == StreamOf(SplitOnce(s, Delimiter(s)).1).rest
  {
  }

  /** The segments reworkShowOn collects: every control, then the remainder
      unless PHP counts it empty ("" or "0"). */
  function Tokenize(s: string): seq<string>
  {
    var st := StreamOf(s);
    st.controls + (if Truthy(st.rest) then [st.rest] else [])
  }

  /** The rewriting of one segment: a segment with a `:` has its field reference
      replaced by the first map key whose value equals it (kept when there is
      none or the key is falsy); a reference ending in `!` gets another `!`;
      whatever follows a second `:` is dropped. */
  function Translate(m: FieldMap, item: string): string
  {
    if !Contains(item, Colon) then item
    else
      var formControl := AtomName(item);
      var condition := AtomValue(item);
      var suffix := if EndsWith(formControl, "!") then "!" else "";
      var found := Search(m, formControl);
      var control := if found.Some? && Truthy(found.value) then found.value else formControl;
      control + suffix + Colon + condition
  }

  function TranslateAll(m: FieldMap, items: seq<string>): (r: seq<string>)
    ensures |r| == |items|
  {
    seq(|items|, i requires 0 <= i < |items| => Translate(m, items[i]))
  }

  /** What reworkShowOn returns: the rewritten segments glued with no delimiter. */
  function ReworkShowOnF(m: FieldMap, showon: string): string
  {
    Concat(TranslateAll(m, Tokenize(showon)))
  }

  /** reworkShowOn: consume the text delimiter by delimiter, then rewrite each
      segment in place, then concatenate. */
  method ReworkShowOn(m: FieldMap, showon: string) returns (r: string)
    ensures r == ReworkShowOnF(m, showon)
  {
    var streamed := CollectSegments(showon);
    streamed := RewriteSegments(m, streamed);
    r := Concat(streamed);
  }

  /** The first half of reworkShowOn: the segments in the order they are consumed. */
  method CollectSegments(showon: string) returns (streamed: seq<string>)
    ensures streamed == Tokenize(showon)
  {
    streamed := [];
    var rest := showon;
    while Contains(rest, AndMark) || Contains(rest, OrMark)
      invariant StreamOf(showon).controls == streamed + StreamOf(rest).controls
      invariant StreamOf(showon).rest == StreamOf(rest).rest
      decreases |rest|
    {
      var andPos := IndexOf(rest, AndMark);
      var orPos := IndexOf(rest, OrMark);
      var delimiter := if (andPos.Some? && orPos.Some? && andPos.value > orPos.value) || orPos.None?
                       then AndMark else OrMark;
      var parts := SplitOnce(rest, delimiter);
      assert delimiter == Delimiter(rest);
      StreamStep(rest);
      ghost var tail := StreamOf(parts.1).controls;
      assert StreamOf(rest).controls == [parts.0] + tail;
      AppendAssoc(streamed, parts.0, tail);
      streamed := streamed + [parts.0];
      rest := parts.1;
    }
    assert StreamOf(rest) == Stream([], [], rest);
    if Truthy(rest) {
      streamed := streamed + [rest];
    }
  }

  /** The second half of reworkShowOn: every segment rewritten in place. */
  method RewriteSegments(m: FieldMap, tokens: seq<string>) returns (streamed: seq<string>)
    ensures streamed == TranslateAll(m, tokens)
  {
    streamed := tokens;
    var i := 0;
    while i < |streamed|
      invariant 0 <= i <= |streamed| == |tokens|
      invariant forall j :: 0 <= j < i ==> streamed[j] == Translate(m, tokens[j])
      invariant forall j :: i <= j < |streamed| ==> streamed[j] == tokens[j]
    {
      var item := RewriteSegment(m, streamed[i]);
      streamed := streamed[i := item];
      i := i + 1;
    }
  }

  /** The rewriting of one segment, as the loop body does it. */
  method RewriteSegment(m: FieldMap, segment: string) returns (item: string)
    ensures item == Translate(m, segment)
  {
    item := segment;
    if Contains(item, Colon) {
      var parts := Split(item, Colon);
      var formControl, condition := parts[0], parts[1];
      var suffix := if EndsWith(formControl, "!") then "!" else "";
      var found := Search(m, formControl);
      formControl := if found.Some? && Truthy(found.value) then found.value else formControl;
      item := formControl + suffix + Colon + condition;
    }
  }

  /** A segment whose reference is not a declared name in the map and does not
      end in `!` becomes `name:value`: itself when it has a single `:`, and
      otherwise itself cut before its second `:`. */
  lemma TranslateUnmapped(m: FieldMap, item: string)
    requires Contains(item, Colon)
    requires Search(m, AtomName(item)).None? && !EndsWith(AtomName(item), "!")
    ensures Translate(m, item) == AtomName(item) + Colon + AtomValue(item)
    ensures StartsWith(item, Translate(m, item))
    ensures !Contains(SplitOnce(item, Colon).1, Colon) ==> Translate(m, item) == item
  {
    AtomParts(item);
  }

  /** A reference ending in `!` that is not in the map comes out with a doubled `!`. */
  lemma TranslateDoublesBang(m: FieldMap, item: string)
    requires Contains(item, Colon)
    requires Search(m, AtomName(item)).None? && EndsWith(AtomName(item), "!")
    ensures Translate(m, item) == AtomName(item) + "!" + Colon + AtomValue(item)
    ensures EndsWith(AtomName(item) + "!", "!!")
  {
    var n := AtomName(item);
    assert n[|n| - 1] == '!';
    assert (n + "!")[|n + "!"| - 2..] == "!!";
  }

  /** A reference that is the declared name of a mapped field is replaced by the
      temporary name of the FIRST entry declaring it. */
  lemma TranslateMapped(m: FieldMap, item: string, i: nat)
    requires Contains(item, Colon)
    requires i < |m| && m[i].1 == AtomName(item) && Truthy(m[i].0)
    requires forall j :: 0 <= j < i ==> m[j].1 != AtomName(item)
    ensures !EndsWith(AtomName(item), "!") ==> Translate(m, item) == m[i].0 + Colon + AtomValue(item)
  {
    var r := Search(m, AtomName(item));
    var k :| 0 <= k < |m| && m[k] == (r.value, AtomName(item)) && forall j :: 0 <= j < k ==> m[j].1 != AtomName(item);
    assert k == i;
  }

  /** Text without a delimiter is one segment, unless PHP counts it empty. */
  lemma TokenizeSingle(s: string)
    requires !Contains(s, AndMark) && !Contains(s, OrMark) && Truthy(s)
    ensures Tokenize(s) == [s]
  {
    assert StreamOf(s) == Stream([], [], s);
  }

  /** Round trip: one `name:value` atom, with no delimiter and no second `:`,
      whose name is not a declared name in the map and has no `!`, comes back unchanged. */
  lemma SingleAtomRoundTrip(m: FieldMap, s: string)
    requires !Contains(s, AndMark) && !Contains(s, OrMark)
    requires Contains(s, Colon) && !Contains(SplitOnce(s, Colon).1, Colon)
    requires Search(m, AtomName(s)).None? && !EndsWith(AtomName(s), "!")
    ensures ReworkShowOnF(m, s) == s
  {
    ContainsChar(s, ':');
    TokenizeSingle(s);
    TranslateUnmapped(m, s);
    SegmentKept(m, s);
  }

  /** A text that is its own only segment, which the map leaves as it is, comes back unchanged. */
  lemma SegmentKept(m: FieldMap, s: string)
    requires Tokenize(s) == [s] && Translate(m, s) == s
    ensures ReworkShowOnF(m, s) == s
  {
    assert TranslateAll(m, [s]) == [s];
    assert Concat([s]) == s + Concat([]);
  }

  /** Delimiter loss: when no segment is changed by the map, the result is the
      input with every consumed delimiter taken out (and a remainder of "0"
      dropped with them). */
  lemma {:induction false} DelimitersDropped(m: FieldMap, s: string)
    requires forall k :: 0 <= k < |Tokenize(s)| ==> Translate(m, Tokenize(s)[k]) == Tokenize(s)[k]
    ensures ReworkShowOnF(m, s) == Concat(StreamOf(s).controls) + (if Truthy(StreamOf(s).rest) then StreamOf(s).rest else "")
    ensures s == Interleave(StreamOf(s).controls, StreamOf(s).delims, StreamOf(s).rest)
  {
    StreamLossless(s);
    var st := StreamOf(s);
    assert TranslateAll(m, Tokenize(s)) == Tokenize(s);
    if !Truthy(st.rest) {
      assert Tokenize(s) == st.controls;
      ConcatAppend(st.controls, []);
    } else {
      ConcatAppend(st.controls, [st.rest]);
    }
  }

  /** A mixed pair keeps its earlier delimiter: the cut is at the later one,
      so the first segment still holds the other mark, whole. */
  lemma EarlierDelimiterKept(s: string)
    requires Contains(s, AndMark) && Contains(s, OrMark)
    ensures Delimiter(s) == AndMark ==> Contains(StreamOf(s).controls[0], OrMark)
    ensures Delimiter(s) == OrMark ==> Contains(StreamOf(s).controls[0], AndMark)
  {
    StreamFirstCut(s);
    var a, o := IndexOf(s, AndMark).value, IndexOf(s, OrMark).value;
    MarksApart(s, a, o);
    if Delimiter(s) == AndMark {
      OccursInPrefix(s, OrMark, o, a);
    } else {
      OccursInPrefix(s, AndMark, a, o);
    }
  }

  /** An occurrence of `[AND]` and one of `[OR]` never overlap: each holds its
      only `[` at its start, and the characters after it differ. */
  lemma MarksApart(s: string, a: int, o: int)
    requires OccursAt(s, AndMark, a) && OccursAt(s, OrMark, o)
    ensures a + 5 <= o || o + 4 <= a
  {
    assert forall i :: a <= i < a + 5 ==> s[i] == AndMark[i - a];
    assert forall i :: o <= i < o + 4 ==> s[i] == OrMark[i - o];
    assert AndMark[1] == 'A' && AndMark[2] == 'N' && AndMark[3] == 'D' && AndMark[4] == ']';
    assert OrMark[0] == '[' && OrMark[1] == 'O' && OrMark[2] == 'R' && OrMark[3] == ']';
    assert s[a] == '[' && s[o] == '[' && s[a + 1] == 'A' && s[o + 1] == 'O';
  }

  /** An occurrence that ends by `n` is an occurrence in the first `n` characters. */
  lemma OccursInPrefix(s: string, d: string, k: int, n: int)
    requires |d| > 0 && OccursAt(s, d, k) && k + |d| <= n <= |s|
    ensures Contains(s[..n], d)
  {
    assert s[..n][k..k + |d|] == s[k..k + |d|];
    ContainsAt(s[..n], d, k);
  }

  /** When the map changes no segment, the rewritten showon of a mixed pair
      still holds the earlier delimiter: only the later one is lost. */
  lemma ReworkKeepsEarlier(m: FieldMap, s: string)
    requires Contains(s, AndMark) && Contains(s, OrMark)
    requires forall k :: 0 <= k < |Tokenize(s)| ==> Translate(m, Tokenize(s)[k]) == Tokenize(s)[k]
    ensures Delimiter(s) == AndMark ==> Contains(ReworkShowOnF(m, s), OrMark)
    ensures Delimiter(s) == OrMark ==> Contains(ReworkShowOnF(m, s), AndMark)
  {
    EarlierDelimiterKept(s);
    DelimitersDropped(m, s);
    StreamFirstCut(s);
    var st := StreamOf(s);
    var d := if Delimiter(s) == AndMark then OrMark else AndMark;
    assert Concat(st.controls) == st.controls[0] + Concat(st.controls[1..]);
    ContainsExtend(st.controls[0], Concat(st.controls[1..]), d);
    ContainsExtend(Concat(st.controls), if Truthy(st.rest) then st.rest else "", d);
  }

  /** Text appended after an occurrence keeps it. */
  lemma ContainsExtend(x: string, y: string, d: string)
    requires |d| > 0 && Contains(x, d)
    ensures Contains(x + y, d)
  {
    var k := IndexOf(x, d).value;
    assert (x + y)[k..k + |d|] == x[k..k + |d|];
    ContainsAt(x + y, d, k);
  }

  /** An element of a sub-form definition: its tag, its showon attribute ("" when
      absent) and its element children. */
  datatype Element = Element(tag: string, showon: string, children: seq<Element>)

  /** reworkFormSource: the direct children of the root are reworked. */
  function ReworkFormSource(m: FieldMap, root: Element): (r: Element)
    decreases root, 1
  {
    root.(children := seq(|root.children|, i requires 0 <= i < |root.children| => ReworkChild(m, root.children[i])))
  }

  /** One direct child: each of its own children named `form` is reworked as a
      sub-form in place, then its own showon is rewritten unless PHP counts it
      empty ("" when absent, or "0"). */
  function ReworkChild(m: FieldMap, c: Element): (r: Element)
    decreases c, 0
  {
    var kids := seq(|c.children|, j requires 0 <= j < |c.children| =>
      if c.children[j].tag == "form" then ReworkFormSource(m, c.children[j]) else c.children[j]);
    c.(children := kids, showon := if Truthy(c.showon) then ReworkShowOnF(m, c.showon) else c.showon)
  }

  /** The shape of the rework: the root keeps its tag and showon; every direct
      child keeps its tag and position and has its showon rewritten when PHP
      does not count it empty; its nested `form` children are reworked and all its other children
      (and their attributes) are left as they were. */
  lemma ReworkFormSourceShape(m: FieldMap, root: Element)
    ensures var r := ReworkFormSource(m, root);
      && r.tag == root.tag && r.showon == root.showon && |r.children| == |root.children|
      && (forall i :: 0 <= i < |root.children| ==>
            && r.children[i].tag == root.children[i].tag
            && |r.children[i].children| == |root.children[i].children|
            && r.children[i].showon == (if Truthy(root.children[i].showon) then ReworkShowOnF(m, root.children[i].showon) else root.children[i].showon)
            && (forall j :: 0 <= j < |root.children[i].children| ==>
                  r.children[i].children[j] ==
                    if root.children[i].children[j].tag == "form"
                    then ReworkFormSource(m, root.children[i].children[j])
                    else root.children[i].children[j]))
  {
  }

  /** Every showon the rework touches, at any depth: those of the root's direct
      children and, recursively, those inside their nested `form` children. */
  predicate AllShowonsFixed(m: FieldMap, root: Element)
    decreases root, 1
  {
    forall i :: 0 <= i < |root.children| ==> ChildShowonsFixed(m, root.children[i])
  }

  predicate ChildShowonsFixed(m: FieldMap, c: Element)
    decreases c, 0
  {
    && (!Truthy(c.showon) || ReworkShowOnF(m, c.showon) == c.showon)
    && forall j :: 0 <= j < |c.children| ==> c.children[j].tag == "form" ==> AllShowonsFixed(m, c.children[j])
  }

  /** A sub-form whose showons the map leaves unchanged is returned unchanged. */
  lemma {:induction false} ReworkFormSourceIdentity(m: FieldMap, root: Element)
    requires AllShowonsFixed(m, root)
    ensures ReworkFormSource(m, root) == root
    decreases root, 1
  {
    forall i | 0 <= i < |root.children|
      ensures ReworkChild(m, root.children[i]) == root.children[i]
    {
      ReworkChildIdentity(m, root.children[i]);
    }
    assert ReworkFormSource(m, root).children == root.children;
  }

  lemma {:induction false} ReworkChildIdentity(m: FieldMap, c: Element)
    requires ChildShowonsFixed(m, c)
    ensures ReworkChild(m, c) == c
    decreases c, 0
  {
    forall j | 0 <= j < |c.children| && c.children[j].tag == "form"
      ensures ReworkFormSource(m, c.children[j]) == c.children[j]
    {
      ReworkFormSourceIdentity(m, c.children[j]);
    }
    assert ReworkChild(m, c).children == c.children;
  }
}
