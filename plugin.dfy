/**
 * The FieldsShowOn plugin object: its sub-form name map, its per-item cache of
 * field values, and the handlers of the events it subscribes to.
 *
 * Host calls are parameters: `fetch(context, id)` stands for loading every
 * custom field of the item and indexing their raw values by field name.
 */
module Plugin {
  import opened Strings
  import opened ShowOn
  import opened Rework
  import opened Forms

  /** The raw values of an item's custom fields, by field name. */
  type Snapshot = map<string, string>

  /** What onCustomFieldsBeforePrepareField does to the field's `display` parameter. */
  datatype DisplayParam = Untouched | DisplayZero

  /** How onContentPrepareForm ended. */
  datatype Outcome =
    | Disabled                   // a disabled component: returned at once
    | ShowonParamAdded           // a field-definition form: the showon parameter was added
    | Reconciled(passes: nat)    // a form using custom fields: reconciled in `passes` passes

  const FieldDefinitionPrefix := "com_fields.field."

  // ------------------------------------------------------------ the gates

  /** A field-definition form of a disabled component. */
  predicate DefinitionDisabled(context: string, disabled: seq<string>)
  {
    exists k :: 0 <= k < |disabled| && StartsWith(context, FieldDefinitionPrefix + disabled[k])
  }

  /** A form or item of a disabled component. */
  predicate UsageDisabled(context: string, disabled: seq<string>)
  {
    exists k :: 0 <= k < |disabled| && StartsWith(context, disabled[k] + ".")
  }

  method IsDefinitionDisabled(context: string, disabled: seq<string>) returns (r: bool)
    ensures r == DefinitionDisabled(context, disabled)
  {
    for k := 0 to |disabled|
      invariant forall q :: 0 <= q < k ==> !StartsWith(context, FieldDefinitionPrefix + disabled[q])
    {
      if StartsWith(context, FieldDefinitionPrefix + disabled[k]) {
        return true;
      }
    }
    return false;
  }

  method IsUsageDisabled(context: string, disabled: seq<string>) returns (r: bool)
    ensures r == UsageDisabled(context, disabled)
  {
    for k := 0 to |disabled|
      invariant forall q :: 0 <= q < k ==> !StartsWith(context, disabled[q] + ".")
    {
      if StartsWith(context, disabled[k] + ".") {
        return true;
      }
    }
    return false;
  }

  /** Disabling `com_foo` gates `com_foo.article` but not `com_foobar.article`:
      the component name must be followed by the dot. */
  lemma UsageGateNeedsDot(context: string, c: string)
    requires StartsWith(context, c + ".")
    ensures UsageDisabled(context, [c])
    ensures !UsageDisabled(c + "bar.article", [c])
  {
    var other := c + "bar.article";
    assert StartsWith(context, [c][0] + ".");
    assert (c + ".")[|c|] == '.';
    assert other[|c|] == 'b';
  }

  // ------------------------------------------------------ field key

  /** The custom field's own name inside a control name such as
      jform[com_fields][tour-dates]: the text after the last `]`-delimited
      bracket, with trailing `]` and a leading `[` trimmed. */
  function FieldKey(name: string): (k: string)
  {
    var bits := Split(RTrimChar(name, ']'), "]");
    LTrimChar(bits[|bits| - 1], '[')
  }

  function Last(s: seq<string>): string
    requires |s| > 0
  {
    s[|s| - 1]
  }

  /** The last piece of explode(d, x . d . y) is y when y holds no d. */
  lemma {:induction false} LastPieceAfter(x: string, y: string, d: string)
    requires |d| == 1 && !Contains(y, d)
    ensures Last(Split(x + d + y, d)) == y
    decreases |x|
  {
    var s := x + d + y;
    assert s[|x|..|x| + 1] == d;
    assert OccursAt(s, d, |x|);
    var i := IndexOf(s, d).value;
    if i == |x| {
      assert s[i + 1..] == y;
      SplitAbsent(y, d);
    } else {
      assert i < |x|;
      assert s[i + 1..] == x[i + 1..] + d + y;
      LastPieceAfter(x[i + 1..], y, d);
    }
  }

  /** The name extraction recovers the field name from a control name whose
      last bracket holds it. */
  lemma FieldKeyOfControl(prefix: string, key: string)
    requires key != "" && '[' !in key && ']' !in key
    requires prefix == "" || prefix[|prefix| - 1] == ']'
    ensures FieldKey(prefix + "[" + key + "]") == key
  {
    var tail := "[" + key;
    assert prefix + "[" + key + "]" == prefix + tail + "]";
    BracketFree(key, tail);
    LastBracketPiece(prefix, tail);
    OpeningBracketDropped(key, tail);
    FieldKeyFrom(prefix + tail + "]", prefix + tail, tail, key);
  }

  lemma FieldKeyFrom(name: string, trimmed: string, tail: string, key: string)
    requires RTrimChar(name, ']') == trimmed
    requires Last(Split(trimmed, "]")) == tail
    requires LTrimChar(tail, '[') == key
    ensures FieldKey(name) == key
  {
  }

  /** Trimming the closing bracket and splitting on `]` leaves the text after
      the last `]` of the prefix as the last piece. */
  lemma LastBracketPiece(prefix: string, tail: string)
    requires tail != "" && ']' !in tail
    requires prefix == "" || prefix[|prefix| - 1] == ']'
    ensures RTrimChar(prefix + tail + "]", ']') == prefix + tail
    ensures Last(Split(prefix + tail, "]")) == tail
  {
    var name := prefix + tail + "]";
    var trimmed := prefix + tail;
    assert name[..|name| - 1] == trimmed;
    assert trimmed[|trimmed| - 1] != ']' by {
      assert trimmed[|trimmed| - 1] == tail[|tail| - 1];
      assert tail[|tail| - 1] in tail;
    }
    assert RTrimChar(name, ']') == trimmed;
    ContainsChar(tail, ']');
    if prefix == "" {
      assert trimmed == tail;
      SplitAbsent(tail, "]");
    } else {
      var x := prefix[..|prefix| - 1];
      assert trimmed == x + "]" + tail;
      LastPieceAfter(x, tail, "]");
    }
  }

  lemma BracketFree(key: string, tail: string)
    requires ']' !in key && tail == "[" + key
    ensures tail != "" && ']' !in tail
  {
    assert tail[1..] == key;
  }

  lemma OpeningBracketDropped(key: string, tail: string)
    requires key != "" && '[' !in key && tail == "[" + key
    ensures LTrimChar(tail, '[') == key
  {
    assert key[0] != '[';
    assert tail[1..] == key;
  }

  // ------------------------------------------------- sub-form sources

  /** A subform field with its sub-form reworked through the map `m`. */
  function ReworkField(m: FieldMap, f: Field): (r: Field)
    ensures r.name == f.name && r.fieldname == f.fieldname && r.showon == f.showon
    ensures r.formsource.Some? == f.formsource.Some?
  {
    match f.formsource
    case None => f
    case Some(src) => f.(formsource := Some(ReworkFormSource(m, src)))
  }

  /** One field of the formsource loop: a field with a sub-form has it
      reworked and stored back under its extracted key. */
  function SourceStep(m: FieldMap, S: Fieldsets, f: Field): Fieldsets
  {
    match f.formsource
    case None => S
    case Some(src) => SetSource(S, FieldKey(f.name), ReworkFormSource(m, src))
  }

  function RunSources(m: FieldMap, S: Fieldsets, fs: Fieldset): (r: Fieldsets)
    ensures SameNames(S, r)
    decreases |fs|
  {
    if |fs| == 0 then S
    else
      var r := RunSources(m, SourceStep(m, S, fs[0]), fs[1..]);
      SameNamesTrans(S, SourceStep(m, S, fs[0]), r);
      r
  }

  /** The formsource loop from the `i`-th fieldset on; each fieldset is read
      when the loop reaches it. */
  function RunSourceSets(m: FieldMap, S: Fieldsets, i: nat): (r: Fieldsets)
    ensures SameNames(S, r)
    decreases |S| - i
  {
    if i >= |S| then S
    else
      var r := RunSourceSets(m, RunSources(m, S, S[i]), i + 1);
      SameNamesTrans(S, RunSources(m, S, S[i]), r);
      r
  }

  lemma SourcesStep(m: FieldMap, S: Fieldsets, fs: Fieldset, j: nat)
    requires j < |fs|
    ensures RunSources(m, S, fs[j..]) == RunSources(m, SourceStep(m, S, fs[j]), fs[j + 1..])
  {
    assert fs[j..][0] == fs[j] && fs[j..][1..] == fs[j + 1..];
  }

  lemma SameNamesTrans(S: Fieldsets, G: Fieldsets, H: Fieldsets)
    requires SameNames(S, G) && SameNames(G, H)
    ensures SameNames(S, H)
  {
  }

  /** Every field's control name leads to its own field name. */
  predicate WellKeyed(S: Fieldsets)
  {
    forall k, j :: 0 <= k < |S| && 0 <= j < |S[k]| ==> FieldKey(S[k][j].name) == S[k][j].fieldname
  }

  function ReworkedFs(m: FieldMap, fs: Fieldset): (r: Fieldset)
    ensures FsNames(r) == FsNames(fs)
  {
    seq(|fs|, l requires 0 <= l < |fs| => ReworkField(m, fs[l]))
  }

  /** The form with every sub-form reworked exactly once and nothing else changed. */
  function Reworked(m: FieldMap, S: Fieldsets): Fieldsets
  {
    seq(|S|, k requires 0 <= k < |S| => ReworkedFs(m, S[k]))
  }

  function MixSrcFs(m: FieldMap, fs: Fieldset, j: nat): (r: Fieldset)
    ensures FsNames(r) == FsNames(fs)
  {
    seq(|fs|, l requires 0 <= l < |fs| => if l < j then ReworkField(m, fs[l]) else fs[l])
  }

  /** The form part-way through the formsource loop. */
  function MixSrc(m: FieldMap, S: Fieldsets, i: nat, j: nat): (r: Fieldsets)
    ensures SameNames(S, r)
  {
    seq(|S|, k requires 0 <= k < |S| =>
      if k < i then ReworkedFs(m, S[k]) else if k == i then MixSrcFs(m, S[i], j) else S[k])
  }

  lemma MixSrcStep(m: FieldMap, S: Fieldsets, i: nat, j: nat)
    requires Unique(S) && i < |S| && j < |S[i]|
    requires FieldKey(S[i][j].name) == S[i][j].fieldname
    ensures SourceStep(m, MixSrc(m, S, i, j), S[i][j]) == MixSrc(m, S, i, j + 1)
  {
    if S[i][j].formsource.Some? {
      MixSrcRework(m, S, i, j);
    } else {
      MixSrcSkip(m, S, i, j);
    }
  }

  /** A field without a sub-form is passed over. */
  lemma MixSrcSkip(m: FieldMap, S: Fieldsets, i: nat, j: nat)
    requires i < |S| && j < |S[i]| && S[i][j].formsource.None?
    ensures MixSrc(m, S, i, j) == MixSrc(m, S, i, j + 1)
  {
    var a, b := MixSrcFs(m, S[i], j), MixSrcFs(m, S[i], j + 1);
    forall l | 0 <= l < |S[i]| ensures a[l] == b[l] {
      if l == j {
        assert ReworkField(m, S[i][j]) == S[i][j];
      }
    }
    assert a == b;
    var c, d := MixSrc(m, S, i, j), MixSrc(m, S, i, j + 1);
    forall k | 0 <= k < |S| ensures c[k] == d[k] {
      if k == i {
        assert c[k] == a && d[k] == b;
      }
    }
  }

  /** Storing the reworked sub-form of the field at position `j` of fieldset
      `i` under its own name touches that field only. */
  lemma MixSrcRework(m: FieldMap, S: Fieldsets, i: nat, j: nat)
    requires Unique(S) && i < |S| && j < |S[i]| && S[i][j].formsource.Some?
    ensures SetSource(MixSrc(m, S, i, j), S[i][j].fieldname, ReworkFormSource(m, S[i][j].formsource.value))
      == MixSrc(m, S, i, j + 1)
  {
    var f := S[i][j];
    var cur := MixSrc(m, S, i, j);
    var nxt := MixSrc(m, S, i, j + 1);
    var r := SetSource(cur, f.fieldname, ReworkFormSource(m, f.formsource.value));
    forall k | 0 <= k < |S| ensures r[k] == nxt[k] {
      forall l | 0 <= l < |S[k]| ensures r[k][l] == nxt[k][l] {
        assert cur[k][l].fieldname == FsNames(cur[k])[l] == FsNames(S[k])[l];
        if k != i {
          assert f.fieldname in FsNames(S[i]);
          assert S[k][l].fieldname in FsNames(S[k]);
        } else if l != j {
          assert FsNames(S[i])[l] != FsNames(S[i])[j];
        }
      }
    }
  }

  /** Once every field of fieldset `i` is done, the form is the one before fieldset `i + 1`. */
  lemma MixSrcDone(m: FieldMap, S: Fieldsets, i: nat)
    requires i < |S|
    ensures MixSrc(m, S, i, |S[i]|) == MixSrc(m, S, i + 1, 0)
  {
    assert MixSrcFs(m, S[i], |S[i]|) == ReworkedFs(m, S[i]);
    if i + 1 < |S| {
      assert MixSrcFs(m, S[i + 1], 0) == S[i + 1];
    }
  }

  lemma {:induction false} MixSrcFieldset(m: FieldMap, S: Fieldsets, i: nat, j: nat)
    requires Unique(S) && WellKeyed(S) && i < |S| && j <= |S[i]|
    ensures RunSources(m, MixSrc(m, S, i, j), S[i][j..]) == MixSrc(m, S, i + 1, 0)
    decreases |S[i]| - j
  {
    if j == |S[i]| {
      MixSrcDone(m, S, i);
    } else {
      SourcesStep(m, MixSrc(m, S, i, j), S[i], j);
      assert FieldKey(S[i][j].name) == S[i][j].fieldname;
      MixSrcStep(m, S, i, j);
      MixSrcFieldset(m, S, i, j + 1);
    }
  }

  lemma {:induction false} MixSrcSets(m: FieldMap, S: Fieldsets, i: nat)
    requires Unique(S) && WellKeyed(S) && i <= |S|
    ensures RunSourceSets(m, MixSrc(m, S, i, 0), i) == Reworked(m, S)
    decreases |S| - i
  {
    if i == |S| {
      assert MixSrc(m, S, i, 0) == Reworked(m, S);
    } else {
      MixSrcWhole(m, S, i);
      MixSrcSets(m, S, i + 1);
    }
  }

  lemma MixSrcWhole(m: FieldMap, S: Fieldsets, i: nat)
    requires Unique(S) && WellKeyed(S) && i < |S|
    ensures RunSourceSets(m, MixSrc(m, S, i, 0), i) == RunSourceSets(m, MixSrc(m, S, i + 1, 0), i + 1)
  {
    var cur := MixSrc(m, S, i, 0);
    assert MixSrcFs(m, S[i], 0) == S[i];
    assert cur[i] == S[i] && S[i][0..] == S[i];
    MixSrcFieldset(m, S, i, 0);
  }

  /** With unique, well-keyed field names the formsource loop reworks every
      sub-form exactly once, as found when the loop starts, and changes
      nothing else: a field visited later never sees a sub-form reworked
      twice, and names and showon attributes are untouched. */
  lemma SourcesReworkedOnce(m: FieldMap, S: Fieldsets)
    requires Unique(S) && WellKeyed(S)
    ensures RunSourceSets(m, S, 0) == Reworked(m, S)
  {
    if |S| > 0 {
      assert MixSrcFs(m, S[0], 0) == S[0];
    }
    assert MixSrc(m, S, 0, 0) == S;
    MixSrcSets(m, S, 0);
  }

  // --------------------------------------------------- the settled form

  /** The walk over a fieldset copy `fs` that started on `start` and has
      evaluated its first `j` fields: `cur` is the form now. */
  predicate FieldsetInv(start: Fieldsets, fs: Fieldset, decide: Decider, j: nat, names: seq<string>, cur: Fieldsets)
  {
    && j <= |fs|
    && RunFieldset(start, fs, decide) == RunFieldset(cur, fs[j..], decide)
    && names == FsNames(fs[..j])
  }

  lemma FieldsetStep(start: Fieldsets, fs: Fieldset, decide: Decider, j: nat, names: seq<string>, cur: Fieldsets)
    requires FieldsetInv(start, fs, decide, j, names, cur) && j < |fs|
    ensures FieldsetInv(start, fs, decide, j + 1, names + [fs[j].fieldname], Step(cur, fs[j], decide))
  {
    assert fs[j..][0] == fs[j] && fs[j..][1..] == fs[j + 1..];
    assert FsNames(fs[..j + 1]) == FsNames(fs[..j]) + [fs[j].fieldname];
  }

  lemma FieldsetDone(start: Fieldsets, fs: Fieldset, decide: Decider, names: seq<string>, cur: Fieldsets)
    requires FieldsetInv(start, fs, decide, |fs|, names, cur)
    ensures cur == RunFieldset(start, fs, decide) && names == FsNames(fs)
  {
    assert fs[..|fs|] == fs && fs[|fs|..] == [];
  }

  /** A pass over `S0` that has visited the first `i` fieldsets: `cur` is the
      form now and `recorded` the names recorded so far. */
  predicate PassInv(S0: Fieldsets, decide: Decider, i: nat, recorded: seq<string>, cur: Fieldsets)
  {
    && i <= |cur| == |S0|
    && PassF(S0, decide) == RunSets(cur, i, decide)
    && Recorded(S0, 0, decide) == recorded + Recorded(cur, i, decide)
  }

  /** Visiting fieldset `i` records its names and runs its fields. */
  lemma PassStep(S0: Fieldsets, decide: Decider, i: nat, recorded: seq<string>, cur: Fieldsets)
    requires PassInv(S0, decide, i, recorded, cur) && i < |cur|
    ensures PassInv(S0, decide, i + 1, recorded + FsNames(cur[i]), RunFieldset(cur, cur[i], decide))
  {
    var next := RunFieldset(cur, cur[i], decide);
    assert RunSets(cur, i, decide) == RunSets(next, i + 1, decide);
    assert Recorded(cur, i, decide) == FsNames(cur[i]) + Recorded(next, i + 1, decide);
  }

  /** evaluateShowOn's decision for the item whose field values are `snap`. */
  function DecideWith(snap: Snapshot): Decider
  {
    (showon, present) => Decide(showon, snap, present)
  }

  lemma DecideWithKeepsBlank(snap: Snapshot)
    ensures KeepsBlank(DecideWith(snap))
  {
    forall present ensures Decide("", snap, present) == Keep {
      DecideBlank("", snap, present);
    }
  }

  /** What the reconciliation loop guarantees about its result, from the
      form `F` it starts on, deciding with `decide`. */
  predicate Settled(F: Fieldsets, passes: nat, decide: Decider, result: Fieldsets)
  {
    && 2 <= passes <= |NameSet(F)| + 2
    && result == Iterate(F, passes, decide)
    && PassF(result, decide) == result
    && !NamesChanged(F, passes - 2, decide)
    && (forall p :: 0 <= p < passes - 2 ==> NamesChanged(F, p, decide))
  }

  /** The pass after the first `p` passes changed the form's names. */
  predicate NamesChanged(F: Fieldsets, p: nat, decide: Decider)
  {
    Names(Iterate(F, p + 1, decide)) != Names(Iterate(F, p, decide))
  }

  lemma ProperSubsetSmaller(A: set<string>, B: set<string>)
    requires A < B
    ensures |A| < |B|
  {
    var x :| x in B && x !in A;
    var C := B - {x};
    assert A <= C;
    assert |C| == |B| - 1;
    assert C == A + (C - A);
    assert |C| == |A| + |C - A|;
  }

  /** The state of the reconciliation loop after `passes` passes over `F`:
      `cur` is the form now, `last` the names the latest pass recorded, and
      `prev` the form that pass started from. */
  predicate ReconcileInv(F: Fieldsets, decide: Decider, passes: nat, last: Option<seq<string>>, prev: Fieldsets, cur: Fieldsets)
  {
    && cur == Iterate(F, passes, decide)
    && Unique(cur)
    && (last.None? <==> passes == 0)
    && (last.Some? ==>
          && cur == PassF(prev, decide)
          && prev == Iterate(F, passes - 1, decide)
          && last.value == Names(prev)
          && Unique(prev)
          && NameSet(cur) <= NameSet(prev)
          && (Names(cur) == Names(prev) || NameSet(cur) < NameSet(prev))
          && passes + |NameSet(prev)| <= |NameSet(F)| + 1)
    && (forall p :: 0 <= p < passes - 1 ==> NamesChanged(F, p, decide))
  }

  function ReconcileMeasure(last: Option<seq<string>>, prev: Fieldsets, cur: Fieldsets): nat
  {
    if last.None? then 2 * |NameSet(cur)| + 1 else |NameSet(prev)| + |NameSet(cur)|
  }

  /** The state of the reconciliation loop: settled once done, and otherwise
      part-way through. */
  predicate LoopState(F: Fieldsets, decide: Decider, passes: nat, done: bool, last: Option<seq<string>>,
                      prev: Fieldsets, cur: Fieldsets)
  {
    if done then Settled(F, passes, decide, cur) else ReconcileInv(F, decide, passes, last, prev, cur)
  }

  function LoopMeasure(done: bool, last: Option<seq<string>>, prev: Fieldsets, cur: Fieldsets): nat
  {
    if done then 0 else ReconcileMeasure(last, prev, cur) + 1
  }

  /** One pass of the loop: it either settles the form or keeps the loop
      state with a smaller measure. */
  lemma LoopAdvances(F: Fieldsets, decide: Decider, passes: nat, last: Option<seq<string>>, prev: Fieldsets, cur: Fieldsets,
                     recorded: seq<string>)
    requires LoopState(F, decide, passes, false, last, prev, cur)
    requires KeepsBlank(decide) && recorded == Recorded(cur, 0, decide)
    ensures LoopState(F, decide, passes + 1, last == Some(recorded), Some(recorded), cur, PassF(cur, decide))
    ensures LoopMeasure(last == Some(recorded), Some(recorded), cur, PassF(cur, decide))
      < LoopMeasure(false, last, prev, cur)
  {
    PassRecords(cur, decide);
    if last == Some(Names(cur)) {
      ReconcileStops(F, decide, passes, last, prev, cur);
    } else {
      ReconcileContinues(F, decide, passes, last, prev, cur);
    }
  }

  /** A pass that records the names the pass before it recorded ends the loop
      on a settled form. */
  lemma ReconcileStops(F: Fieldsets, decide: Decider, passes: nat, last: Option<seq<string>>, prev: Fieldsets, cur: Fieldsets)
    requires ReconcileInv(F, decide, passes, last, prev, cur)
    requires last == Some(Names(cur))
    requires KeepsBlank(decide)
    ensures Settled(F, passes + 1, decide, PassF(cur, decide))
  {
    PassIdempotent(prev, decide);
    assert PassF(cur, decide) == cur;
    assert Iterate(F, passes + 1, decide) == PassF(cur, decide);
    assert !NamesChanged(F, passes - 1, decide);
  }

  /** A pass that records new names keeps the loop's invariant and lowers its measure. */
  lemma ReconcileContinues(F: Fieldsets, decide: Decider, passes: nat, last: Option<seq<string>>, prev: Fieldsets, cur: Fieldsets)
    requires ReconcileInv(F, decide, passes, last, prev, cur)
    requires last != Some(Names(cur))
    ensures ReconcileInv(F, decide, passes + 1, Some(Names(cur)), cur, PassF(cur, decide))
    ensures ReconcileMeasure(Some(Names(cur)), cur, PassF(cur, decide)) < ReconcileMeasure(last, prev, cur)
  {
    var next := PassF(cur, decide);
    PassProgress(cur, decide);
    assert Iterate(F, passes + 1, decide) == next;
    NamesChangedExtend(F, decide, passes, last, prev, cur);
    if last.Some? {
      ProperSubsetSmaller(NameSet(cur), NameSet(prev));
    }
    assert |NameSet(next)| <= |NameSet(cur)| by {
      if NameSet(next) != NameSet(cur) {
        ProperSubsetSmaller(NameSet(next), NameSet(cur));
      }
    }
    assert passes + 1 + |NameSet(cur)| <= |NameSet(F)| + 1 by {
      if last.None? {
        assert cur == F;
      }
    }
  }

  /** Every pass before a pass that records new names changed the names. */
  lemma NamesChangedExtend(F: Fieldsets, decide: Decider, passes: nat, last: Option<seq<string>>, prev: Fieldsets, cur: Fieldsets)
    requires ReconcileInv(F, decide, passes, last, prev, cur)
    requires last != Some(Names(cur))
    ensures last.Some? ==> NameSet(cur) < NameSet(prev)
    ensures forall p :: 0 <= p < passes ==> NamesChanged(F, p, decide)
  {
    if last.Some? {
      assert Names(cur) != Names(prev);
      assert NamesChanged(F, passes - 1, decide);
    }
  }

  /** The cache after item `id` was looked up any number of times: as it was,
      or with the item's values `snap` stored under `id`; no other entry moves. */
  predicate CacheExtended(before: map<string, Snapshot>, after: map<string, Snapshot>, id: string, snap: Snapshot)
  {
    after == before || after == before[id := snap]
  }

  lemma CacheExtendedTrans(a: map<string, Snapshot>, b: map<string, Snapshot>, c: map<string, Snapshot>, id: string, snap: Snapshot)
    requires CacheExtended(a, b, id, snap) && CacheExtended(b, c, id, snap)
    ensures CacheExtended(a, c, id, snap)
  {
    if b == a[id := snap] && c == b[id := snap] {
      assert c == a[id := snap];
    }
  }

  // ------------------------------------------------------------- the plugin

  class FieldsShowOn {
    /** The components the site administrator excluded. */
    const disabledComponents: seq<string>
    /** Sub-form field names: Joomla's temporary name to the declared name. */
    var customFieldMap: FieldMap
    /** The cache of item field values, by item id ("" for an item without one). */
    var itemFields: map<string, Snapshot>

    ghost predicate Valid()
      reads this
    {
      UniqueKeys(customFieldMap)
    }

    constructor (disabled: seq<string>)
      ensures Valid()
      ensures disabledComponents == disabled && customFieldMap == [] && itemFields == map[]
    {
      disabledComponents := disabled;
      customFieldMap := [];
      itemFields := map[];
    }

    /** The values getCachedFields returns for item `id` now: cached, or fetched. */
    function SnapshotFor(context: string, id: string, fetch: (string, string) -> Snapshot): Snapshot
      reads this
    {
      if id in itemFields then itemFields[id] else fetch(context, id)
    }

    /** getCachedFields: the item's values, loaded at most once per item. */
    method GetCachedFields(context: string, id: string, fetch: (string, string) -> Snapshot) returns (snap: Snapshot)
      modifies this
      ensures snap == old(SnapshotFor(context, id, fetch))
      ensures itemFields == old(itemFields)[id := snap]
      ensures customFieldMap == old(customFieldMap)
    {
      if id in itemFields {
        return itemFields[id];
      }
      snap := fetch(context, id);
      itemFields := itemFields[id := snap];
    }

    /** onCustomFieldsPrepareDom: record the temporary name of a sub-form
        field when it has a declared name. */
    method PrepareDom(name: string, fieldname: string)
      requires Valid()
      modifies this
      ensures Valid()
      ensures customFieldMap == if Truthy(fieldname) then Put(old(customFieldMap), name, fieldname) else old(customFieldMap)
      ensures itemFields == old(itemFields)
    {
      if Truthy(fieldname) {
        PutUnique(customFieldMap, name, fieldname);
        customFieldMap := Put(customFieldMap, name, fieldname);
      }
    }

    /** onCustomFieldsBeforePrepareField: hide a field whose showon expression
        fails on the item's values; never show one. */
    method BeforePrepareField(context: string, id: string, showon: string, fetch: (string, string) -> Snapshot)
      returns (display: DisplayParam)
      modifies this
      ensures display == DisplayZero <==>
        && !UsageDisabled(context, disabledComponents)
        && Truthy(Trim(showon))
        && ShouldHide(Parse(Trim(showon)), old(SnapshotFor(context, id, fetch)))
      ensures itemFields ==
        if !UsageDisabled(context, disabledComponents) && Truthy(Trim(showon))
        then old(itemFields)[id := old(SnapshotFor(context, id, fetch))]
        else old(itemFields)
      ensures customFieldMap == old(customFieldMap)
      ensures SnapshotFor(context, id, fetch) == old(SnapshotFor(context, id, fetch))
    {
      var gated := IsUsageDisabled(context, disabledComponents);
      if gated {
        return Untouched;
      }
      var t := Trim(showon);
      if !Truthy(t) {
        return Untouched;
      }
      var snap := GetCachedFields(context, id, fetch);
      var p := ParseShowOn(t);
      var hidden := HideOnDisplay(p, snap);
      display := if hidden then DisplayZero else Untouched;
    }

    /** evaluateShowOn: leave the field alone, blank its showon, or remove it
        from the form. */
    method EvaluateShowOn(form: Form, f: Field, id: string, fetch: (string, string) -> Snapshot)
      modifies this, form
      ensures form.fieldsets == Step(old(form.fieldsets), f, DecideWith(old(SnapshotFor(form.name, id, fetch))))
      ensures itemFields ==
        if Truthy(Trim(f.showon)) then old(itemFields)[id := old(SnapshotFor(form.name, id, fetch))] else old(itemFields)
      ensures SnapshotFor(form.name, id, fetch) == old(SnapshotFor(form.name, id, fetch))
      ensures customFieldMap == old(customFieldMap)
    {
      ghost var S := form.fieldsets;
      ghost var a := Decide(f.showon, old(SnapshotFor(form.name, id, fetch)), NameSet(S));
      var t := Trim(f.showon);
      if !Truthy(t) {
        assert a == Keep;
        return;
      }
      var snap := GetCachedFields(form.name, id, fetch);
      var p := ParseShowOn(t);
      var shouldHide, hasAllFields := EvaluateConditions(p, snap, NameSet(form.fieldsets));
      assert a == (if hasAllFields then Keep else if !shouldHide then BlankShowon else RemoveField);
      if hasAllFields {
        return;
      }
      if !shouldHide {
        form.BlankShowon(f.fieldname);
        return;
      }
      form.RemoveField(f.fieldname);
    }

    /** The inner loop of a pass over one fieldset copy `fs`. */
    method PassFieldset(form: Form, fs: Fieldset, id: string, fetch: (string, string) -> Snapshot)
      returns (names: seq<string>)
      modifies this, form
      ensures form.fieldsets == RunFieldset(old(form.fieldsets), fs, DecideWith(old(SnapshotFor(form.name, id, fetch))))
      ensures names == FsNames(fs)
      ensures CacheExtended(old(itemFields), itemFields, id, old(SnapshotFor(form.name, id, fetch)))
      ensures SnapshotFor(form.name, id, fetch) == old(SnapshotFor(form.name, id, fetch))
      ensures customFieldMap == old(customFieldMap)
    {
      ghost var snap := SnapshotFor(form.name, id, fetch);
      ghost var decide := DecideWith(snap);
      ghost var start := form.fieldsets;
      names := [];
      var j := 0;
      while j < |fs|
        invariant FieldsetInv(start, fs, decide, j, names, form.fieldsets)
        invariant CacheExtended(old(itemFields), itemFields, id, snap)
        invariant SnapshotFor(form.name, id, fetch) == snap
        invariant customFieldMap == old(customFieldMap)
      {
        FieldsetStep(start, fs, decide, j, names, form.fieldsets);
        names := names + [fs[j].fieldname];
        ghost var before := itemFields;
        EvaluateShowOn(form, fs[j], id, fetch);
        CacheExtendedTrans(old(itemFields), before, itemFields, id, snap);
        j := j + 1;
      }
      FieldsetDone(start, fs, decide, names, form.fieldsets);
    }

    /** One pass of the reconciliation loop: every field of every fieldset,
        its name recorded before it is evaluated. */
    method Pass(form: Form, id: string, fetch: (string, string) -> Snapshot) returns (recorded: seq<string>)
      modifies this, form
      ensures form.fieldsets == PassF(old(form.fieldsets), DecideWith(old(SnapshotFor(form.name, id, fetch))))
      ensures recorded == Recorded(old(form.fieldsets), 0, DecideWith(old(SnapshotFor(form.name, id, fetch))))
      ensures CacheExtended(old(itemFields), itemFields, id, old(SnapshotFor(form.name, id, fetch)))
      ensures SnapshotFor(form.name, id, fetch) == old(SnapshotFor(form.name, id, fetch))
      ensures customFieldMap == old(customFieldMap)
    {
      ghost var snap := SnapshotFor(form.name, id, fetch);
      ghost var S0 := form.fieldsets;
      recorded := [];
      var i := 0;
      while i < |form.fieldsets|
        invariant PassInv(S0, DecideWith(snap), i, recorded, form.fieldsets)
        invariant CacheExtended(old(itemFields), itemFields, id, snap)
        invariant SnapshotFor(form.name, id, fetch) == snap
        invariant customFieldMap == old(customFieldMap)
        decreases |S0| - i
      {
        recorded := VisitFieldset(form, id, fetch, S0, snap, old(itemFields), i, recorded);
        i := i + 1;
      }
    }

    /** One turn of a pass: read fieldset `i` afresh, record its names and
        evaluate its fields. */
    method VisitFieldset(form: Form, id: string, fetch: (string, string) -> Snapshot, ghost S0: Fieldsets, ghost snap: Snapshot,
                         ghost base: map<string, Snapshot>, i: nat, recorded: seq<string>)
      returns (recorded': seq<string>)
      requires PassInv(S0, DecideWith(snap), i, recorded, form.fieldsets) && i < |form.fieldsets|
      requires SnapshotFor(form.name, id, fetch) == snap
      requires CacheExtended(base, itemFields, id, snap)
      modifies this, form
      ensures PassInv(S0, DecideWith(snap), i + 1, recorded', form.fieldsets)
      ensures CacheExtended(base, itemFields, id, snap)
      ensures SnapshotFor(form.name, id, fetch) == snap
      ensures customFieldMap == old(customFieldMap)
    {
      var fs := form.GetFieldset(i);
      PassStep(S0, DecideWith(snap), i, recorded, form.fieldsets);
      ghost var before := itemFields;
      var names := PassFieldset(form, fs, id, fetch);
      CacheExtendedTrans(base, before, itemFields, id, snap);
      recorded' := recorded + names;
    }

    /** The inner formsource loop over one fieldset copy `fs`. */
    method ReworkFieldsetSources(form: Form, fs: Fieldset)
      modifies form
      ensures form.fieldsets == RunSources(customFieldMap, old(form.fieldsets), fs)
    {
      ghost var start := form.fieldsets;
      var j := 0;
      while j < |fs|
        invariant j <= |fs|
        invariant RunSources(customFieldMap, start, fs) == RunSources(customFieldMap, form.fieldsets, fs[j..])
      {
        ghost var cur := form.fieldsets;
        SourcesStep(customFieldMap, cur, fs, j);
        var f := fs[j];
        if f.formsource.Some? {
          var src := ReworkFormSource(customFieldMap, f.formsource.value);
          form.SetFormsource(FieldKey(f.name), src);
        }
        assert form.fieldsets == SourceStep(customFieldMap, cur, f);
        j := j + 1;
      }
      assert fs[j..] == [];
    }

    /** The formsource loop: the sub-form of every subform field is reworked
        with the name map and stored back in the form. */
    method ReworkSources(form: Form)
      modifies form
      ensures form.fieldsets == RunSourceSets(customFieldMap, old(form.fieldsets), 0)
    {
      ghost var S0 := form.fieldsets;
      var i := 0;
      while i < |form.fieldsets|
        invariant 0 <= i <= |form.fieldsets| == |S0|
        invariant RunSourceSets(customFieldMap, S0, 0) == RunSourceSets(customFieldMap, form.fieldsets, i)
      {
        ghost var cur := form.fieldsets;
        var fs := form.GetFieldset(i);
        ReworkFieldsetSources(form, fs);
        assert RunSourceSets(customFieldMap, cur, i) == RunSourceSets(customFieldMap, form.fieldsets, i + 1);
        i := i + 1;
      }
    }

    /** The reconciliation loop: passes until one records the same names as
        the pass before it. */
    method Reconcile(form: Form, id: string, fetch: (string, string) -> Snapshot) returns (passes: nat)
      requires Unique(form.fieldsets)
      modifies this, form
      ensures Settled(old(form.fieldsets), passes, DecideWith(old(SnapshotFor(form.name, id, fetch))), form.fieldsets)
      ensures CacheExtended(old(itemFields), itemFields, id, old(SnapshotFor(form.name, id, fetch)))
      ensures SnapshotFor(form.name, id, fetch) == old(SnapshotFor(form.name, id, fetch))
      ensures customFieldMap == old(customFieldMap)
    {
      passes := ReconcileLoop(form, id, fetch, form.fieldsets, SnapshotFor(form.name, id, fetch));
    }

    /** The loop of Reconcile, from the form `F` as it was before the first
        pass and the item's values `snap`. */
    method ReconcileLoop(form: Form, id: string, fetch: (string, string) -> Snapshot, ghost F: Fieldsets, ghost snap: Snapshot)
      returns (passes: nat)
      requires F == form.fieldsets && Unique(F)
      requires SnapshotFor(form.name, id, fetch) == snap
      modifies this, form
      ensures Settled(F, passes, DecideWith(snap), form.fieldsets)
      ensures CacheExtended(old(itemFields), itemFields, id, snap)
      ensures SnapshotFor(form.name, id, fetch) == snap
      ensures customFieldMap == old(customFieldMap)
    {
      ghost var prev: Fieldsets := [];
      ghost var cur := F;
      var last: Option<seq<string>> := None;
      var done := false;
      passes := 0;
      while !done
        invariant cur == form.fieldsets && LoopState(F, DecideWith(snap), passes, done, last, prev, cur)
        invariant CacheExtended(old(itemFields), itemFields, id, snap)
        invariant SnapshotFor(form.name, id, fetch) == snap
        invariant customFieldMap == old(customFieldMap)
        decreases LoopMeasure(done, last, prev, cur)
      {
        passes, done, last, prev, cur := Advance(form, id, fetch, F, snap, old(itemFields), passes, last, prev, cur);
      }
    }

    /** One turn of the reconciliation loop: a pass, and what it tells the loop. */
    method Advance(form: Form, id: string, fetch: (string, string) -> Snapshot, ghost F: Fieldsets, ghost snap: Snapshot,
                   ghost base: map<string, Snapshot>, passes: nat, last: Option<seq<string>>, ghost prev: Fieldsets, ghost cur: Fieldsets)
      returns (passes': nat, done: bool, last': Option<seq<string>>, ghost prev': Fieldsets, ghost cur': Fieldsets)
      requires cur == form.fieldsets && LoopState(F, DecideWith(snap), passes, false, last, prev, cur)
      requires SnapshotFor(form.name, id, fetch) == snap
      requires CacheExtended(base, itemFields, id, snap)
      modifies this, form
      ensures cur' == form.fieldsets && LoopState(F, DecideWith(snap), passes', done, last', prev', cur')
      ensures LoopMeasure(done, last', prev', cur') < LoopMeasure(false, last, prev, cur)
      ensures CacheExtended(base, itemFields, id, snap)
      ensures SnapshotFor(form.name, id, fetch) == snap
      ensures customFieldMap == old(customFieldMap)
    {
      ghost var before := itemFields;
      var recorded := Pass(form, id, fetch);
      CacheExtendedTrans(base, before, itemFields, id, snap);
      DecideWithKeepsBlank(snap);
      LoopAdvances(F, DecideWith(snap), passes, last, prev, cur, recorded);
      passes', done, last', prev', cur' := passes + 1, last == Some(recorded), Some(recorded), cur, PassF(cur, DecideWith(snap));
    }

    /** onContentPrepareForm. A field-definition form gets the showon
        parameter; a form using custom fields has its sub-forms reworked and is
        then reconciled. */
    method PrepareForm(form: Form, id: string, fetch: (string, string) -> Snapshot) returns (outcome: Outcome)
      requires !StartsWith(form.name, FieldDefinitionPrefix) && !UsageDisabled(form.name, disabledComponents) ==>
        Unique(form.fieldsets)
      modifies this, form
      ensures StartsWith(form.name, FieldDefinitionPrefix) ==>
        && outcome == (if DefinitionDisabled(form.name, disabledComponents) then Disabled else ShowonParamAdded)
        && form.fieldsets == old(form.fieldsets) && itemFields == old(itemFields)
      ensures !StartsWith(form.name, FieldDefinitionPrefix) && UsageDisabled(form.name, disabledComponents) ==>
        outcome == Disabled && form.fieldsets == old(form.fieldsets) && itemFields == old(itemFields)
      ensures !StartsWith(form.name, FieldDefinitionPrefix) && !UsageDisabled(form.name, disabledComponents) ==>
        && outcome.Reconciled?
        && Settled(RunSourceSets(old(customFieldMap), old(form.fieldsets), 0), outcome.passes,
                   DecideWith(old(SnapshotFor(form.name, id, fetch))), form.fieldsets)
        && CacheExtended(old(itemFields), itemFields, id, old(SnapshotFor(form.name, id, fetch)))
      ensures customFieldMap == old(customFieldMap)
    {
      if StartsWith(form.name, FieldDefinitionPrefix) {
        var blocked := IsDefinitionDisabled(form.name, disabledComponents);
        return if blocked then Disabled else ShowonParamAdded;
      }
      var gated := IsUsageDisabled(form.name, disabledComponents);
      if gated {
        return Disabled;
      }
      ghost var S0 := form.fieldsets;
      ReworkSources(form);
      SameNamesAgree(S0, form.fieldsets);
      var passes := Reconcile(form, id, fetch);
      return Reconciled(passes);
    }
  }
}
