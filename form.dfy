/**
 * The host form the plugin edits: its com_fields fieldsets, each an ordered
 * list of custom fields. The state is a sequence of fieldsets; removing a
 * field and blanking a showon act on every field with the given fieldname.
 *
 * One reconciliation pass visits the fieldsets in order. Each fieldset is
 * read afresh when the pass reaches it, and each field of that copy is then
 * evaluated against the form as it stands at that moment.
 *
 * What one evaluation decides is a parameter of the pass: it depends on the
 * field's showon and on the names the form holds at that moment. The plugin
 * decides with ShowOn.Decide over the item's field values; all the pass needs
 * of a decision is that a blank showon is left alone.
 */
module Forms {
  import opened Strings
  import opened ShowOn
  import opened Rework

  /** A custom field as the form holds it: the control name Joomla gave it
      (e.g. jform[com_fields][tour-dates]), its own field name, its showon
      attribute and, for a subform field, its sub-form definition. */
  datatype Field = Field(name: string, fieldname: string, showon: string, formsource: Option<Element>)

  type Fieldset = seq<Field>
  type Fieldsets = seq<Fieldset>

  /** What evaluating a showon does, given the names the form holds at that moment. */
  type Decider = (string, set<string>) -> Action

  /** A blank showon is never acted on. */
  ghost predicate KeepsBlank(decide: Decider)
  {
    forall present :: decide("", present) == Keep
  }

  // ---------------------------------------------------------------- names

  function FsNames(fs: Fieldset): (r: seq<string>)
    ensures |r| == |fs|
    ensures forall j :: 0 <= j < |fs| ==> r[j] == fs[j].fieldname
  {
    seq(|fs|, j requires 0 <= j < |fs| => fs[j].fieldname)
  }

  /** The field names of the fieldsets from the `i`-th on, in form order. */
  function NamesFrom(S: Fieldsets, i: nat): seq<string>
    decreases |S| - i
  {
    if i >= |S| then [] else FsNames(S[i]) + NamesFrom(S, i + 1)
  }

  /** The field names of the whole form, in form order. */
  function Names(S: Fieldsets): seq<string>
  {
    NamesFrom(S, 0)
  }

  /** The names getField finds. */
  function NameSet(S: Fieldsets): set<string>
  {
    set k, x | 0 <= k < |S| && x in FsNames(S[k]) :: x
  }

  predicate UniqueSeq(s: seq<string>)
  {
    forall a, b :: 0 <= a < b < |s| ==> s[a] != s[b]
  }

  /** No two fields of the form share a field name. */
  predicate Unique(S: Fieldsets)
  {
    && (forall k :: 0 <= k < |S| ==> UniqueSeq(FsNames(S[k])))
    && (forall k, l, x :: 0 <= k < l < |S| && x in FsNames(S[k]) ==> x !in FsNames(S[l]))
  }

  /** Two forms whose fieldsets hold the same field names, position by position. */
  predicate SameNames(S: Fieldsets, G: Fieldsets)
  {
    |S| == |G| && forall k :: 0 <= k < |S| ==> FsNames(S[k]) == FsNames(G[k])
  }

  lemma {:induction false} NamesFromMembership(S: Fieldsets, i: nat, x: string)
    ensures x in NamesFrom(S, i) <==> exists k :: i <= k < |S| && x in FsNames(S[k])
    decreases |S| - i
  {
    if i < |S| {
      NamesFromMembership(S, i + 1, x);
      assert NamesFrom(S, i) == FsNames(S[i]) + NamesFrom(S, i + 1);
      if x in FsNames(S[i]) {
        assert i <= i < |S| && x in FsNames(S[i]);
      } else if x in NamesFrom(S, i + 1) {
      } else {
        forall k | i <= k < |S| ensures x !in FsNames(S[k]) {
          if k > i {
            assert i + 1 <= k < |S|;
          }
        }
      }
    }
  }

  /** The names in form order are exactly the names getField finds. */
  lemma NamesNameSet(S: Fieldsets)
    ensures forall x :: x in Names(S) <==> x in NameSet(S)
  {
    forall x ensures x in Names(S) <==> x in NameSet(S) {
      NamesFromMembership(S, 0, x);
    }
  }

  lemma {:induction false} SameNamesFrom(S: Fieldsets, G: Fieldsets, i: nat)
    requires SameNames(S, G)
    ensures NamesFrom(S, i) == NamesFrom(G, i)
    decreases |S| - i
  {
    if i < |S| {
      SameNamesFrom(S, G, i + 1);
    }
  }

  /** Forms with the same names position by position agree on everything that
      depends only on names. */
  lemma SameNamesAgree(S: Fieldsets, G: Fieldsets)
    requires SameNames(S, G)
    ensures Names(S) == Names(G)
    ensures NameSet(S) == NameSet(G)
    ensures Unique(S) ==> Unique(G)
  {
    SameNamesFrom(S, G, 0);
  }

  // ------------------------------------------------------- form mutations

  /** The fieldset without its fields named `n`. */
  function Filter(fs: Fieldset, n: string): (r: Fieldset)
    ensures forall x :: x in FsNames(r) <==> x in FsNames(fs) && x != n
    ensures n !in FsNames(fs) ==> r == fs
  {
    if |fs| == 0 then []
    else
      FsNamesCons(fs[0], fs[1..]);
      assert [fs[0]] + fs[1..] == fs;
      var rest := Filter(fs[1..], n);
      FsNamesCons(fs[0], rest);
      if fs[0].fieldname == n then rest else [fs[0]] + rest
  }

  lemma FsNamesCons(f: Field, fs: Fieldset)
    ensures FsNames([f] + fs) == [f.fieldname] + FsNames(fs)
  {
    var l, r := FsNames([f] + fs), [f.fieldname] + FsNames(fs);
    assert |l| == |r|;
    forall j | 0 <= j < |l| ensures l[j] == r[j] {
      if j > 0 {
        assert ([f] + fs)[j] == fs[j - 1];
      }
    }
  }

  /** Removing fields keeps the remaining names unique. */
  lemma {:induction false} FilterUnique(fs: Fieldset, n: string)
    requires UniqueSeq(FsNames(fs))
    ensures UniqueSeq(FsNames(Filter(fs, n)))
    decreases |fs|
  {
    if |fs| > 0 {
      FsNamesCons(fs[0], fs[1..]);
      assert [fs[0]] + fs[1..] == fs;
      UniqueTail(fs[0].fieldname, FsNames(fs[1..]));
      FilterUnique(fs[1..], n);
      var rest := Filter(fs[1..], n);
      if fs[0].fieldname != n {
        FsNamesCons(fs[0], rest);
        UniqueCons(fs[0].fieldname, FsNames(rest));
      }
    }
  }

  lemma UniqueTail(x: string, names: seq<string>)
    requires UniqueSeq([x] + names)
    ensures UniqueSeq(names) && x !in names
  {
    var s := [x] + names;
    forall a, b | 0 <= a < b < |names| ensures names[a] != names[b] {
      assert s[a + 1] == names[a] && s[b + 1] == names[b];
    }
    forall b | 0 <= b < |names| ensures names[b] != x {
      assert s[0] == x && s[b + 1] == names[b];
    }
  }

  lemma UniqueCons(x: string, names: seq<string>)
    requires UniqueSeq(names) && x !in names
    ensures UniqueSeq([x] + names)
  {
    var s := [x] + names;
    forall a, b | 0 <= a < b < |s| ensures s[a] != s[b] {
      assert s[b] == names[b - 1];
      if a > 0 {
        assert s[a] == names[a - 1];
      } else {
        assert names[b - 1] in names;
      }
    }
  }

  /** The fieldset with the showon of its fields named `n` blanked. */
  function BlankIn(fs: Fieldset, n: string): (r: Fieldset)
    ensures FsNames(r) == FsNames(fs)
    ensures n !in FsNames(fs) ==> r == fs
  {
    seq(|fs|, j requires 0 <= j < |fs| => if fs[j].fieldname == n then fs[j].(showon := "") else fs[j])
  }

  /** Form::removeField(n, 'com_fields') */
  function RemoveName(S: Fieldsets, n: string): (r: Fieldsets)
    ensures |r| == |S|
  {
    seq(|S|, k requires 0 <= k < |S| => Filter(S[k], n))
  }

  /** `$field->showon = ''` for the field named `n`. */
  function BlankName(S: Fieldsets, n: string): (r: Fieldsets)
    ensures SameNames(S, r)
  {
    seq(|S|, k requires 0 <= k < |S| => BlankIn(S[k], n))
  }

  /** Removing a field takes exactly its name out of the form and keeps names unique. */
  lemma RemoveNameEffect(S: Fieldsets, n: string)
    ensures NameSet(RemoveName(S, n)) == NameSet(S) - {n}
    ensures n !in NameSet(S) ==> RemoveName(S, n) == S
    ensures Unique(S) ==> Unique(RemoveName(S, n))
  {
    var r := RemoveName(S, n);
    forall x ensures x in NameSet(r) <==> x in NameSet(S) && x != n {
      if x in NameSet(r) {
        var k :| 0 <= k < |r| && x in FsNames(r[k]);
        assert x in FsNames(S[k]);
      }
      if x in NameSet(S) && x != n {
        var k :| 0 <= k < |S| && x in FsNames(S[k]);
        assert x in FsNames(r[k]);
      }
    }
    if Unique(S) {
      forall k | 0 <= k < |S| ensures UniqueSeq(FsNames(r[k])) {
        FilterUnique(S[k], n);
      }
    }
    if n !in NameSet(S) {
      forall k | 0 <= k < |S| ensures r[k] == S[k] {
        assert n !in FsNames(S[k]);
      }
    }
  }

  /** What evaluateShowOn does to the form for one decision. */
  function Apply(S: Fieldsets, n: string, a: Action): Fieldsets
  {
    match a
    case Keep => S
    case BlankShowon => BlankName(S, n)
    case RemoveField => RemoveName(S, n)
  }

  /** evaluateShowOn on field `f`, deciding with `decide` against the form `S`. */
  function Step(S: Fieldsets, f: Field, decide: Decider): Fieldsets
  {
    Apply(S, f.fieldname, decide(f.showon, NameSet(S)))
  }

  /** Evaluating the fields of a fieldset copy `fs` one after the other. */
  function RunFieldset(S: Fieldsets, fs: Fieldset, decide: Decider): (r: Fieldsets)
    ensures |r| == |S|
    decreases |fs|
  {
    if |fs| == 0 then S else RunFieldset(Step(S, fs[0], decide), fs[1..], decide)
  }

  /** The rest of a pass from the `i`-th fieldset on: each fieldset is read
      from the form as it stands when the pass reaches it. */
  function RunSets(S: Fieldsets, i: nat, decide: Decider): (r: Fieldsets)
    ensures |r| == |S|
    decreases |S| - i
  {
    if i >= |S| then S else RunSets(RunFieldset(S, S[i], decide), i + 1, decide)
  }

  /** One reconciliation pass over the whole form. */
  function PassF(S: Fieldsets, decide: Decider): Fieldsets
  {
    RunSets(S, 0, decide)
  }

  /** The field names a pass records, from the `i`-th fieldset on. */
  function Recorded(S: Fieldsets, i: nat, decide: Decider): seq<string>
    decreases |S| - i
  {
    if i >= |S| then [] else FsNames(S[i]) + Recorded(RunFieldset(S, S[i], decide), i + 1, decide)
  }

  /** The pass applied `n` times. */
  function Iterate(S: Fieldsets, n: nat, decide: Decider): Fieldsets
  {
    if n == 0 then S else PassF(Iterate(S, n - 1, decide), decide)
  }

  // ------------------------------------------------- what a pass preserves

  /** One evaluation never adds a name and keeps names unique. */
  lemma StepShrinks(S: Fieldsets, f: Field, decide: Decider)
    ensures NameSet(Step(S, f, decide)) <= NameSet(S)
    ensures Unique(S) ==> Unique(Step(S, f, decide))
  {
    match decide(f.showon, NameSet(S))
    case Keep =>
    case BlankShowon => SameNamesAgree(S, BlankName(S, f.fieldname));
    case RemoveField => RemoveNameEffect(S, f.fieldname);
  }

  lemma {:induction false} RunFieldsetShrinks(S: Fieldsets, fs: Fieldset, decide: Decider)
    ensures NameSet(RunFieldset(S, fs, decide)) <= NameSet(S)
    ensures Unique(S) ==> Unique(RunFieldset(S, fs, decide))
    decreases |fs|
  {
    if |fs| > 0 {
      StepShrinks(S, fs[0], decide);
      RunFieldsetShrinks(Step(S, fs[0], decide), fs[1..], decide);
    }
  }

  lemma {:induction false} RunSetsShrinks(S: Fieldsets, i: nat, decide: Decider)
    ensures NameSet(RunSets(S, i, decide)) <= NameSet(S)
    ensures Unique(S) ==> Unique(RunSets(S, i, decide))
    decreases |S| - i
  {
    if i < |S| {
      RunFieldsetShrinks(S, S[i], decide);
      RunSetsShrinks(RunFieldset(S, S[i], decide), i + 1, decide);
    }
  }

  /** Evaluating fields whose names occur only in fieldset `i` leaves every
      other fieldset as it was. */
  lemma {:induction false} RunFieldsetOthers(S: Fieldsets, fs: Fieldset, i: nat, decide: Decider)
    requires i < |S|
    requires forall j, k :: 0 <= j < |fs| && 0 <= k < |S| && k != i ==> fs[j].fieldname !in FsNames(S[k])
    ensures forall k :: 0 <= k < |S| && k != i ==> RunFieldset(S, fs, decide)[k] == S[k]
    decreases |fs|
  {
    if |fs| > 0 {
      var S' := Step(S, fs[0], decide);
      assert forall k :: 0 <= k < |S| && k != i ==> S'[k] == S[k] by {
        forall k | 0 <= k < |S| && k != i ensures S'[k] == S[k] {
          assert fs[0].fieldname !in FsNames(S[k]);
        }
      }
      RunFieldsetOthers(S', fs[1..], i, decide);
    }
  }

  lemma {:induction false} NamesFromSuffix(S: Fieldsets, G: Fieldsets, i: nat)
    requires |S| == |G|
    requires forall k :: i <= k < |S| ==> S[k] == G[k]
    ensures NamesFrom(S, i) == NamesFrom(G, i)
    decreases |S| - i
  {
    if i < |S| {
      NamesFromSuffix(S, G, i + 1);
    }
  }

  /** With unique names, the names a pass records are the names the form had
      when the pass began: a fieldset is untouched until the pass reaches it. */
  lemma {:induction false} RecordedNames(S: Fieldsets, i: nat, decide: Decider)
    requires Unique(S)
    ensures Recorded(S, i, decide) == NamesFrom(S, i)
    decreases |S| - i
  {
    if i < |S| {
      var S' := RunFieldset(S, S[i], decide);
      forall j, k | 0 <= j < |S[i]| && 0 <= k < |S| && k != i
        ensures S[i][j].fieldname !in FsNames(S[k])
      {
        assert S[i][j].fieldname in FsNames(S[i]);
      }
      RunFieldsetOthers(S, S[i], i, decide);
      NamesFromSuffix(S', S, i + 1);
      RunFieldsetShrinks(S, S[i], decide);
      RecordedNames(S', i + 1, decide);
    }
  }

  // ------------------------------------------------ a pass that removes nothing

  /** A field as a pass leaves it when nothing is removed: blanked when its
      expression is decided always shown. */
  function QuiesceField(f: Field, decide: Decider, present: set<string>): Field
  {
    if decide(f.showon, present) == BlankShowon then f.(showon := "") else f
  }

  function QuiesceFs(fs: Fieldset, decide: Decider, present: set<string>): (r: Fieldset)
    ensures FsNames(r) == FsNames(fs)
  {
    seq(|fs|, j requires 0 <= j < |fs| => QuiesceField(fs[j], decide, present))
  }

  /** The form with every always-shown expression blanked, decided against the
      names the form has now. */
  function Quiesce(S: Fieldsets, decide: Decider): (r: Fieldsets)
    ensures SameNames(S, r)
  {
    seq(|S|, k requires 0 <= k < |S| => QuiesceFs(S[k], decide, NameSet(S)))
  }

  /** No field of the form is decided always hidden. */
  predicate NoRemoval(S: Fieldsets, decide: Decider)
  {
    forall k :: 0 <= k < |S| ==> NoRemovalFrom(S[k], 0, decide, NameSet(S))
  }

  /** Every field of the form is left alone by evaluateShowOn. */
  predicate Quiet(S: Fieldsets, decide: Decider)
  {
    forall k, j :: 0 <= k < |S| && 0 <= j < |S[k]| ==> decide(S[k][j].showon, NameSet(S)) == Keep
  }

  /** A fieldset whose first `j` fields are quiesced. */
  function MixFs(fs: Fieldset, j: nat, decide: Decider, present: set<string>): (r: Fieldset)
    ensures FsNames(r) == FsNames(fs)
  {
    seq(|fs|, l requires 0 <= l < |fs| => if l < j then QuiesceField(fs[l], decide, present) else fs[l])
  }

  /** The form part-way through a pass that has removed nothing: the fieldsets
      before `i` and the first `j` fields of fieldset `i` are quiesced. */
  function Mix(S: Fieldsets, i: nat, j: nat, decide: Decider): (r: Fieldsets)
    ensures SameNames(S, r)
  {
    seq(|S|, k requires 0 <= k < |S| =>
      if k < i then QuiesceFs(S[k], decide, NameSet(S))
      else if k == i then MixFs(S[i], j, decide, NameSet(S))
      else S[k])
  }

  lemma MixEnds(S: Fieldsets, i: nat, decide: Decider)
    requires i < |S|
    ensures Mix(S, i, |S[i]|, decide) == Mix(S, i + 1, 0, decide)
    ensures Mix(S, i, 0, decide)[i] == S[i]
  {
    var P := NameSet(S);
    assert MixFs(S[i], |S[i]|, decide, P) == QuiesceFs(S[i], decide, P);
    assert MixFs(S[i], 0, decide, P) == S[i];
    forall k | 0 <= k < |S| ensures Mix(S, i, |S[i]|, decide)[k] == Mix(S, i + 1, 0, decide)[k] {
      if k == i + 1 {
        assert MixFs(S[k], 0, decide, P) == S[k];
      }
    }
  }

  lemma MixBounds(S: Fieldsets, decide: Decider)
    ensures Mix(S, 0, 0, decide) == S
    ensures Mix(S, |S|, 0, decide) == Quiesce(S, decide)
  {
    var P := NameSet(S);
    forall k | 0 <= k < |S| ensures Mix(S, 0, 0, decide)[k] == S[k] {
      if k == 0 {
        assert MixFs(S[0], 0, decide, P) == S[0];
      }
    }
  }

  /** Blanking the field at position `j` of fieldset `i` is the next step of the mix. */
  lemma MixBlank(S: Fieldsets, i: nat, j: nat, decide: Decider)
    requires Unique(S) && i < |S| && j < |S[i]|
    requires decide(S[i][j].showon, NameSet(S)) == BlankShowon
    ensures BlankName(Mix(S, i, j, decide), S[i][j].fieldname) == Mix(S, i, j + 1, decide)
  {
    var cur := Mix(S, i, j, decide);
    var nxt := Mix(S, i, j + 1, decide);
    var b := BlankName(cur, S[i][j].fieldname);
    assert |b| == |nxt|;
    forall k | 0 <= k < |S| ensures b[k] == nxt[k] {
      if k != i {
        MixBlankOther(S, i, j, k, decide);
      } else {
        MixBlankRow(S, i, j, decide);
      }
    }
  }

  /** Blanking a name of fieldset `i` leaves every other fieldset of the mix alone. */
  lemma MixBlankOther(S: Fieldsets, i: nat, j: nat, k: nat, decide: Decider)
    requires Unique(S) && i < |S| && j < |S[i]| && k < |S| && k != i
    ensures BlankName(Mix(S, i, j, decide), S[i][j].fieldname)[k] == Mix(S, i, j + 1, decide)[k]
  {
    var cur := Mix(S, i, j, decide);
    var n := S[i][j].fieldname;
    assert FsNames(S[i])[j] == n;
    if k < i {
      assert n !in FsNames(S[k]);
    } else {
      assert n !in FsNames(S[k]);
    }
    assert FsNames(cur[k]) == FsNames(S[k]);
    assert BlankName(cur, n)[k] == BlankIn(cur[k], n) == cur[k];
  }

  /** Blanking the name at position `j` of fieldset `i` quiesces that one field. */
  lemma MixBlankRow(S: Fieldsets, i: nat, j: nat, decide: Decider)
    requires Unique(S) && i < |S| && j < |S[i]|
    requires decide(S[i][j].showon, NameSet(S)) == BlankShowon
    ensures BlankName(Mix(S, i, j, decide), S[i][j].fieldname)[i] == Mix(S, i, j + 1, decide)[i]
  {
    var P := NameSet(S);
    var n := S[i][j].fieldname;
    var ci := MixFs(S[i], j, decide, P);
    var ni := MixFs(S[i], j + 1, decide, P);
    assert Mix(S, i, j, decide)[i] == ci;
    assert Mix(S, i, j + 1, decide)[i] == ni;
    assert BlankName(Mix(S, i, j, decide), n)[i] == BlankIn(ci, n);
    var bi := BlankIn(ci, n);
    assert UniqueSeq(FsNames(S[i]));
    forall l | 0 <= l < |S[i]| ensures bi[l] == ni[l] {
      if l != j {
        assert FsNames(S[i])[l] != FsNames(S[i])[j];
        assert ci[l].fieldname == FsNames(ci)[l];
      }
    }
  }

  /** Keeping the field at position `j` of fieldset `i` is the next step of the mix. */
  lemma MixKeep(S: Fieldsets, i: nat, j: nat, decide: Decider)
    requires i < |S| && j < |S[i]|
    requires decide(S[i][j].showon, NameSet(S)) == Keep
    ensures Mix(S, i, j, decide) == Mix(S, i, j + 1, decide)
  {
    var P := NameSet(S);
    var a := MixFs(S[i], j, decide, P);
    var b := MixFs(S[i], j + 1, decide, P);
    forall l | 0 <= l < |S[i]| ensures a[l] == b[l] {
      if l == j {
        assert QuiesceField(S[i][j], decide, P) == S[i][j];
      }
    }
    assert a == b;
    var m, m' := Mix(S, i, j, decide), Mix(S, i, j + 1, decide);
    forall k | 0 <= k < |S| ensures m[k] == m'[k] {
      if k == i {
        assert m[k] == a && m'[k] == b;
      }
    }
  }

  /** Evaluating the field at position `j` of fieldset `i` on the mix either
      moves the mix one field on or takes a name out of the form. */
  lemma MixStep(S: Fieldsets, i: nat, j: nat, decide: Decider)
    requires Unique(S) && i < |S| && j < |S[i]|
    ensures decide(S[i][j].showon, NameSet(S)) != RemoveField ==>
      Step(Mix(S, i, j, decide), S[i][j], decide) == Mix(S, i, j + 1, decide)
    ensures decide(S[i][j].showon, NameSet(S)) == RemoveField ==>
      NameSet(Step(Mix(S, i, j, decide), S[i][j], decide)) < NameSet(S)
  {
    var cur := Mix(S, i, j, decide);
    var f := S[i][j];
    SameNamesAgree(S, cur);
    var a := decide(f.showon, NameSet(S));
    assert Step(cur, f, decide) == Apply(cur, f.fieldname, a);
    match a
    case Keep => MixKeep(S, i, j, decide);
    case BlankShowon => MixBlank(S, i, j, decide);
    case RemoveField => MixRemove(S, i, j, decide);
  }

  /** Removing a field of the mix takes a name out of the form. */
  lemma MixRemove(S: Fieldsets, i: nat, j: nat, decide: Decider)
    requires i < |S| && j < |S[i]|
    ensures NameSet(RemoveName(Mix(S, i, j, decide), S[i][j].fieldname)) < NameSet(S)
  {
    var cur := Mix(S, i, j, decide);
    SameNamesAgree(S, cur);
    assert FsNames(cur[i]) == FsNames(S[i]);
    assert S[i][j].fieldname in FsNames(cur[i]);
    RemovePresent(cur, i, S[i][j].fieldname);
  }

  lemma RemovePresent(S: Fieldsets, i: nat, n: string)
    requires i < |S| && n in FsNames(S[i])
    ensures NameSet(RemoveName(S, n)) < NameSet(S)
  {
    RemoveNameEffect(S, n);
    assert n in NameSet(S);
  }

  lemma RunFieldsetFrom(S: Fieldsets, fs: Fieldset, j: nat, decide: Decider)
    requires j < |fs|
    ensures RunFieldset(S, fs[j..], decide) == RunFieldset(Step(S, fs[j], decide), fs[j + 1..], decide)
  {
    assert fs[j..][0] == fs[j] && fs[j..][1..] == fs[j + 1..];
  }

  /** No field of `fs` from position `j` on is decided always hidden. */
  predicate NoRemovalFrom(fs: Fieldset, j: nat, decide: Decider, present: set<string>)
  {
    forall l :: j <= l < |fs| ==> decide(fs[l].showon, present) != RemoveField
  }

  lemma NoRemovalExtend(fs: Fieldset, j: nat, decide: Decider, present: set<string>)
    requires j < |fs| && decide(fs[j].showon, present) != RemoveField
    ensures NoRemovalFrom(fs, j + 1, decide, present) ==> NoRemovalFrom(fs, j, decide, present)
  {
  }

  /** The rest of fieldset `i` from field `j` on, in a pass that so far removed
      nothing: either the mix moves on to the next fieldset and none of these
      fields is decided hidden, or the form loses a name. */
  lemma {:induction false} MixFieldset(S: Fieldsets, i: nat, j: nat, decide: Decider)
    requires Unique(S) && i < |S| && j <= |S[i]|
    ensures
      || (RunFieldset(Mix(S, i, j, decide), S[i][j..], decide) == Mix(S, i + 1, 0, decide)
          && NoRemovalFrom(S[i], j, decide, NameSet(S)))
      || NameSet(RunFieldset(Mix(S, i, j, decide), S[i][j..], decide)) < NameSet(S)
    decreases |S[i]| - j
  {
    var cur := Mix(S, i, j, decide);
    if j == |S[i]| {
      MixEnds(S, i, decide);
      assert S[i][j..] == [];
    } else {
      var next := Step(cur, S[i][j], decide);
      RunFieldsetFrom(cur, S[i], j, decide);
      MixStep(S, i, j, decide);
      if decide(S[i][j].showon, NameSet(S)) == RemoveField {
        RunFieldsetShrinks(next, S[i][j + 1..], decide);
      } else {
        MixFieldset(S, i, j + 1, decide);
        NoRemovalExtend(S[i], j, decide, NameSet(S));
      }
    }
  }

  /** A whole fieldset visited by a pass that so far removed nothing. */
  lemma MixFieldsetWhole(S: Fieldsets, i: nat, decide: Decider)
    requires Unique(S) && i < |S|
    ensures Mix(S, i, 0, decide)[i] == S[i]
    ensures
      || (RunFieldset(Mix(S, i, 0, decide), S[i], decide) == Mix(S, i + 1, 0, decide)
          && NoRemovalFrom(S[i], 0, decide, NameSet(S)))
      || NameSet(RunFieldset(Mix(S, i, 0, decide), S[i], decide)) < NameSet(S)
  {
    MixEnds(S, i, decide);
    assert S[i][0..] == S[i];
    MixFieldset(S, i, 0, decide);
  }

  /** The rest of a pass from fieldset `i` on, in a pass that so far removed nothing. */
  lemma {:induction false} MixSets(S: Fieldsets, i: nat, decide: Decider)
    requires Unique(S) && i <= |S|
    ensures
      || (&& RunSets(Mix(S, i, 0, decide), i, decide) == Quiesce(S, decide)
          && forall k :: i <= k < |S| ==> NoRemovalFrom(S[k], 0, decide, NameSet(S)))
      || NameSet(RunSets(Mix(S, i, 0, decide), i, decide)) < NameSet(S)
    decreases |S| - i, 1
  {
    if i == |S| {
      MixBounds(S, decide);
    } else {
      MixFieldsetWhole(S, i, decide);
      var after := RunFieldset(Mix(S, i, 0, decide), S[i], decide);
      if after == Mix(S, i + 1, 0, decide) && NoRemovalFrom(S[i], 0, decide, NameSet(S)) {
        MixSetsKept(S, i, decide);
      } else {
        MixSetsLost(S, i, decide);
      }
    }
  }

  lemma {:induction false} MixSetsKept(S: Fieldsets, i: nat, decide: Decider)
    requires Unique(S) && i < |S|
    requires Mix(S, i, 0, decide)[i] == S[i]
    requires RunFieldset(Mix(S, i, 0, decide), S[i], decide) == Mix(S, i + 1, 0, decide)
    requires NoRemovalFrom(S[i], 0, decide, NameSet(S))
    ensures
      || (&& RunSets(Mix(S, i, 0, decide), i, decide) == Quiesce(S, decide)
          && forall k :: i <= k < |S| ==> NoRemovalFrom(S[k], 0, decide, NameSet(S)))
      || NameSet(RunSets(Mix(S, i, 0, decide), i, decide)) < NameSet(S)
    decreases |S| - i, 0
  {
    assert RunSets(Mix(S, i, 0, decide), i, decide) == RunSets(Mix(S, i + 1, 0, decide), i + 1, decide);
    MixSets(S, i + 1, decide);
  }

  lemma MixSetsLost(S: Fieldsets, i: nat, decide: Decider)
    requires i < |S|
    requires Mix(S, i, 0, decide)[i] == S[i]
    requires NameSet(RunFieldset(Mix(S, i, 0, decide), S[i], decide)) < NameSet(S)
    ensures NameSet(RunSets(Mix(S, i, 0, decide), i, decide)) < NameSet(S)
  {
    var after := RunFieldset(Mix(S, i, 0, decide), S[i], decide);
    assert RunSets(Mix(S, i, 0, decide), i, decide) == RunSets(after, i + 1, decide);
    RunSetsShrinks(after, i + 1, decide);
  }

  /** With unique names, a pass either removes some name for good, or removes
      nothing: then no field was decided hidden and the pass blanked exactly the
      always-shown expressions. */
  lemma PassQuiesces(S: Fieldsets, decide: Decider)
    requires Unique(S)
    ensures (PassF(S, decide) == Quiesce(S, decide) && NoRemoval(S, decide)) || NameSet(PassF(S, decide)) < NameSet(S)
  {
    MixBounds(S, decide);
    MixSets(S, 0, decide);
  }

  lemma {:induction false} RunFieldsetQuiet(S: Fieldsets, fs: Fieldset, decide: Decider)
    requires forall l :: 0 <= l < |fs| ==> decide(fs[l].showon, NameSet(S)) == Keep
    ensures RunFieldset(S, fs, decide) == S
    decreases |fs|
  {
    if |fs| > 0 {
      RunFieldsetQuiet(S, fs[1..], decide);
    }
  }

  /** A form on which every field is left alone is a fixed point of the pass. */
  lemma {:induction false} QuietFixed(S: Fieldsets, i: nat, decide: Decider)
    requires Quiet(S, decide)
    ensures RunSets(S, i, decide) == S
    decreases |S| - i
  {
    if i < |S| {
      RunFieldsetQuiet(S, S[i], decide);
      QuietFixed(S, i + 1, decide);
    }
  }

  /** Once the always-shown expressions are blanked, and nothing is hidden, every field is left alone. */
  lemma QuiesceQuiet(S: Fieldsets, decide: Decider)
    requires KeepsBlank(decide) && NoRemoval(S, decide)
    ensures Quiet(Quiesce(S, decide), decide)
  {
    var Q := Quiesce(S, decide);
    SameNamesAgree(S, Q);
    forall k, j | 0 <= k < |Q| && 0 <= j < |Q[k]| ensures decide(Q[k][j].showon, NameSet(Q)) == Keep {
      if Q[k][j] != S[k][j] {
        assert Q[k][j].showon == "";
      }
    }
  }

  // ------------------------------------------------------ pass-level results

  /** A pass never adds a field, keeps names unique, and either keeps the names
      exactly or removes some name for good. */
  lemma PassProgress(S: Fieldsets, decide: Decider)
    requires Unique(S)
    ensures Unique(PassF(S, decide))
    ensures NameSet(PassF(S, decide)) <= NameSet(S)
    ensures Names(PassF(S, decide)) == Names(S) || NameSet(PassF(S, decide)) < NameSet(S)
  {
    RunSetsShrinks(S, 0, decide);
    PassQuiesces(S, decide);
    if PassF(S, decide) == Quiesce(S, decide) {
      SameNamesAgree(S, Quiesce(S, decide));
    }
  }

  /** With unique names, a pass records exactly the names the form had when it began. */
  lemma PassRecords(S: Fieldsets, decide: Decider)
    requires Unique(S)
    ensures Recorded(S, 0, decide) == Names(S)
  {
    RecordedNames(S, 0, decide);
  }

  /** A pass after which the form has the same names as before has settled the
      form: a second pass changes nothing. */
  lemma PassIdempotent(S: Fieldsets, decide: Decider)
    requires Unique(S) && KeepsBlank(decide)
    requires Names(PassF(S, decide)) == Names(S)
    ensures PassF(PassF(S, decide), decide) == PassF(S, decide)
  {
    NamesNameSet(S);
    NamesNameSet(PassF(S, decide));
    PassQuiesces(S, decide);
    QuiesceQuiet(S, decide);
    QuietFixed(PassF(S, decide), 0, decide);
  }

  // ----------------------------------------------- evaluateShowOn, one field

  /** Removing keeps every other field, with its multiplicity, and drops every field named `n`. */
  lemma {:induction false} FilterExact(fs: Fieldset, n: string)
    ensures forall g :: g in Filter(fs, n) ==> g.fieldname != n
    ensures forall g: Field :: g.fieldname != n ==> multiset(Filter(fs, n))[g] == multiset(fs)[g]
    decreases |fs|
  {
    if |fs| > 0 {
      var rest := Filter(fs[1..], n);
      FilterExact(fs[1..], n);
      assert fs == [fs[0]] + fs[1..];
      assert multiset(fs) == multiset([fs[0]]) + multiset(fs[1..]);
      if fs[0].fieldname != n {
        assert Filter(fs, n) == [fs[0]] + rest;
        assert multiset(Filter(fs, n)) == multiset([fs[0]]) + multiset(rest);
      } else {
        assert Filter(fs, n) == rest;
      }
    }
  }

  /** Blanking touches the showon of the fields named `n` and nothing else. */
  lemma BlankNameExact(S: Fieldsets, n: string)
    ensures forall k, j :: 0 <= k < |S| && 0 <= j < |S[k]| ==>
      BlankName(S, n)[k][j] == if S[k][j].fieldname == n then S[k][j].(showon := "") else S[k][j]
  {
  }

  /** Removing drops the fields named `n`, in every fieldset, and keeps every other field. */
  lemma RemoveNameExact(S: Fieldsets, n: string)
    ensures forall k :: 0 <= k < |S| ==>
      && (forall g :: g in RemoveName(S, n)[k] ==> g.fieldname != n)
      && (forall g: Field :: g.fieldname != n ==> multiset(RemoveName(S, n)[k])[g] == multiset(S[k])[g])
  {
    forall k | 0 <= k < |S| {
      FilterExact(S[k], n);
    }
  }

  // ------------------------------------------------------------- host form

  /** setFieldAttribute(n, 'formsource', src): the model gives the sub-form `src`
      to every field named `n`; Joomla sets it on the first such field, the
      same one when names are unique. */
  function SetSource(S: Fieldsets, n: string, src: Element): (r: Fieldsets)
    ensures SameNames(S, r)
  {
    seq(|S|, k requires 0 <= k < |S| =>
      seq(|S[k]|, j requires 0 <= j < |S[k]| =>
        if S[k][j].fieldname == n then S[k][j].(formsource := Some(src)) else S[k][j]))
  }

  /** The part of a Joomla form the plugin sees: its name (the context, e.g.
      com_content.article) and its com_fields fieldsets. */
  class Form {
    const name: string
    var fieldsets: Fieldsets

    constructor (name: string, fieldsets: Fieldsets)
      ensures this.name == name && this.fieldsets == fieldsets
    {
      this.name := name;
      this.fieldsets := fieldsets;
    }

    /** getFieldset: the fields of the `i`-th fieldset as they are now. */
    method GetFieldset(i: nat) returns (fs: Fieldset)
      requires i < |fieldsets|
      ensures fs == fieldsets[i]
    {
      fs := fieldsets[i];
    }

    /** removeField(n, 'com_fields'): the model drops every field named `n`;
        Joomla removes the first such field, the same one when names are unique. */
    method RemoveField(n: string)
      modifies this
      ensures fieldsets == RemoveName(old(fieldsets), n)
    {
      fieldsets := RemoveName(fieldsets, n);
    }

    /** `$field->showon = ''` for the field named `n`. */
    method BlankShowon(n: string)
      modifies this
      ensures fieldsets == BlankName(old(fieldsets), n)
    {
      fieldsets := BlankName(fieldsets, n);
    }

    /** setFieldAttribute(n, 'formsource', src, 'com_fields') */
    method SetFormsource(n: string, src: Element)
      modifies this
      ensures fieldsets == SetSource(old(fieldsets), n, src)
    {
      fieldsets := SetSource(fieldsets, n, src);
    }
  }
}
