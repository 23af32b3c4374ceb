/**
 * The showon expression language of the plugin: parsing a raw expression into
 * its OR branches and AND list, reading `name:value` atoms, and the two
 * evaluators (the one used while editing a form and the one used while
 * displaying an item).
 */
module ShowOn {
  import opened Strings

  const OrMark := "[OR]"
  const AndMark := "[AND]"
  const Colon := ":"

  /** A parsed expression: the OR branches and the AND list (empty when there is none). */
  datatype Showon = Showon(ors: seq<string>, ands: seq<string>)

  /** What evaluating a field's showon does to the form being edited. */
  datatype Action = Keep | BlankShowon | RemoveField

  /** The index of the last branch in which stripos finds an `[AND]` (in any
      letter case), None when no branch has one. */
  function LastAndBranch(branches: seq<string>): (r: Option<nat>)
    ensures r.Some? ==> r.value < |branches|
  {
    if |branches| == 0 then None
    else if ContainsCI(branches[|branches| - 1], AndMark) then Some(|branches| - 1)
    else LastAndBranch(branches[..|branches| - 1])
  }

  /** The branch found has a marker and no later branch has one; when none is
      found, no branch has one. */
  lemma {:induction false} LastAndBranchSpec(branches: seq<string>)
    ensures LastAndBranch(branches).Some? ==> ContainsCI(branches[LastAndBranch(branches).value], AndMark)
    ensures LastAndBranch(branches).Some? ==>
      forall k :: LastAndBranch(branches).value < k < |branches| ==> !ContainsCI(branches[k], AndMark)
    ensures LastAndBranch(branches).None? ==> forall k :: 0 <= k < |branches| ==> !ContainsCI(branches[k], AndMark)
    decreases |branches|
  {
    if |branches| > 0 && !ContainsCI(branches[|branches| - 1], AndMark) {
      var init := branches[..|branches| - 1];
      LastAndBranchSpec(init);
      assert forall k :: 0 <= k < |init| ==> init[k] == branches[k];
    }
  }

  /** What the parser keeps of an OR branch: the text before its first `[AND]`.
      A branch whose marker is not spelt in capitals is not cut, because the
      split with a limit of two finds nothing to split on. */
  function CutAtAnd(b: string): string
  {
    if Contains(b, AndMark) then SplitOnce(b, AndMark).0 else b
  }

  /** The AND list of a list of branches: the text after the first `[AND]` of the
      last branch that has a marker, split on `[AND]`. When that branch's marker
      is not spelt in capitals the tail is PHP's null, which explode reads as
      the empty string, so the list is a single empty atom. */
  function AndsOf(branches: seq<string>): seq<string>
  {
    match LastAndBranch(branches)
    case None => []
    case Some(k) =>
      if Contains(branches[k], AndMark) then Split(SplitOnce(branches[k], AndMark).1, AndMark) else [""]
  }

  /** The parse of a (trimmed) showon expression. */
  function Parse(t: string): Showon
  {
    var branches := Split(t, OrMark);
    Showon(seq(|branches|, k requires 0 <= k < |branches| => CutAtAnd(branches[k])), AndsOf(branches))
  }

  /** The AND list of the first `k + 1` branches, from that of the first `k`. */
  lemma AndsOfSnoc(b: seq<string>, k: nat)
    requires k < |b|
    ensures AndsOf(b[..k + 1]) ==
      if !ContainsCI(b[k], AndMark) then AndsOf(b[..k])
      else if Contains(b[k], AndMark) then Split(SplitOnce(b[k], AndMark).1, AndMark)
      else [""]
  {
    var c := b[..k + 1];
    assert c[..|c| - 1] == b[..k] && c[|c| - 1] == b[k];
  }

  /** The parser as the plugin runs it: split on `[OR]`, then walk the branches,
      cutting each one that holds an `[AND]` and taking its tail as the AND list. */
  method ParseShowOn(t: string) returns (p: Showon)
    ensures p == Parse(t)
  {
    var branches := Split(t, OrMark);
    var ors, ands := WalkBranches(branches);
    p := Showon(ors, ands);
  }

  /** The walk over the OR branches: each branch in which stripos finds an
      `[AND]` is cut there, and the last such branch gives the AND list. */
  method WalkBranches(branches: seq<string>) returns (ors: seq<string>, ands: seq<string>)
    ensures |ors| == |branches|
    ensures forall j :: 0 <= j < |branches| ==> ors[j] == CutAtAnd(branches[j])
    ensures ands == AndsOf(branches)
  {
    ors := branches;
    ands := [];
    var k := 0;
    while k < |branches|
      invariant k <= |branches|
      invariant Walked(branches, k, ors, ands)
    {
      var cut, tail := CutBranch(branches[k]);
      WalkStep(branches, k, ors, ands, cut, tail);
      if tail.Some? {
        ands := tail.value;
        ors := ors[k := cut];
      }
      k := k + 1;
    }
    assert branches[..k] == branches;
  }

  /** The first `k` branches are walked: cut, with the AND list they give. */
  predicate Walked(branches: seq<string>, k: nat, ors: seq<string>, ands: seq<string>)
  {
    && k <= |branches| && |ors| == |branches|
    && (forall j :: 0 <= j < k ==> ors[j] == CutAtAnd(branches[j]))
    && (forall j :: k <= j < |branches| ==> ors[j] == branches[j])
    && ands == AndsOf(branches[..k])
  }

  lemma WalkStep(branches: seq<string>, k: nat, ors: seq<string>, ands: seq<string>, cut: string, tail: Option<seq<string>>)
    requires k < |branches| && Walked(branches, k, ors, ands)
    requires cut == CutAtAnd(branches[k])
    requires tail.None? <==> !ContainsCI(branches[k], AndMark)
    requires tail.None? ==> cut == branches[k]
    requires tail.Some? ==> tail.value == if Contains(branches[k], AndMark) then Split(SplitOnce(branches[k], AndMark).1, AndMark) else [""]
    ensures tail.None? ==> Walked(branches, k + 1, ors, ands)
    ensures tail.Some? ==> Walked(branches, k + 1, ors[k := cut], tail.value)
  {
    AndsOfSnoc(branches, k);
  }

  /** One branch of the parser's walk: when stripos finds an `[AND]`, the
      branch is cut at it and the rest becomes the AND list. */
  method CutBranch(b: string) returns (cut: string, tail: Option<seq<string>>)
    ensures cut == CutAtAnd(b)
    ensures tail.None? <==> !ContainsCI(b, AndMark)
    ensures tail.None? ==> cut == b
    ensures tail.Some? ==> tail.value == if Contains(b, AndMark) then Split(SplitOnce(b, AndMark).1, AndMark) else [""]
  {
    ContainsImpliesContainsCI(b, AndMark);
    cut, tail := b, None;
    if ContainsCI(b, AndMark) {
      if Contains(b, AndMark) {
        var parts := SplitOnce(b, AndMark);
        cut, tail := parts.0, Some(Split(parts.1, AndMark));
      } else {
        tail := Some([""]);
      }
    }
  }

  /** Only one branch (the last one with a marker) carries an `[AND]`, and its
      marker is spelt in capitals. */
  predicate SingleAndGroup(branches: seq<string>)
  {
    LastAndBranch(branches).Some? ==>
      && Contains(branches[LastAndBranch(branches).value], AndMark)
      && forall k :: 0 <= k < LastAndBranch(branches).value ==> !Contains(branches[k], AndMark)
  }

  /** The OR branches with branch `i` given back its `[AND]` and AND list. */
  function Restored(p: Showon, i: nat): seq<string>
  {
    if i < |p.ors| then p.ors[i := p.ors[i] + AndMark + Join(p.ands, AndMark)] else p.ors
  }

  /** The parse loses nothing: when at most one branch carries an AND list,
      putting `[AND]` and the AND list back after that branch and joining the
      branches with `[OR]` restores the expression. */
  lemma ParseRoundTrip(t: string)
    requires SingleAndGroup(Split(t, OrMark))
    ensures LastAndBranch(Split(t, OrMark)).None? ==> Parse(t).ands == [] && Join(Parse(t).ors, OrMark) == t
    ensures LastAndBranch(Split(t, OrMark)).Some? ==> Join(Restored(Parse(t), LastAndBranch(Split(t, OrMark)).value), OrMark) == t
  {
    SplitJoin(t, OrMark);
    if LastAndBranch(Split(t, OrMark)).None? {
      ParseWithoutAnd(t);
    } else {
      ParseWithAnd(t);
    }
  }

  /** With no `[AND]` in any spelling, the branches are kept as they are. */
  lemma ParseWithoutAnd(t: string)
    requires LastAndBranch(Split(t, OrMark)).None?
    ensures Parse(t).ands == [] && Parse(t).ors == Split(t, OrMark)
  {
    var b := Split(t, OrMark);
    var p := Parse(t);
    LastAndBranchSpec(b);
    forall k | 0 <= k < |b| ensures p.ors[k] == b[k] {
      ContainsImpliesContainsCI(b[k], AndMark);
    }
  }

  /** With a single group, restoring its `[AND]` and AND list gives back the branches. */
  lemma ParseWithAnd(t: string)
    requires SingleAndGroup(Split(t, OrMark))
    requires LastAndBranch(Split(t, OrMark)).Some?
    ensures Restored(Parse(t), LastAndBranch(Split(t, OrMark)).value) == Split(t, OrMark)
  {
    var b := Split(t, OrMark);
    var p := Parse(t);
    var i := LastAndBranch(b).value;
    LastAndBranchSpec(b);
    var parts := SplitOnce(b[i], AndMark);
    SplitJoin(parts.1, AndMark);
    assert p.ands == Split(parts.1, AndMark);
    var r := Restored(p, i);
    assert |r| == |b|;
    forall k | 0 <= k < |b| ensures r[k] == b[k] {
      if k == i {
        assert r[k] == p.ors[i] + AndMark + Join(p.ands, AndMark);
        assert p.ors[i] == parts.0;
      } else {
        if k > i {
          ContainsImpliesContainsCI(b[k], AndMark);
        }
        assert !Contains(b[k], AndMark);
        assert r[k] == p.ors[k] == CutAtAnd(b[k]);
      }
    }
  }

  /** No OR branch and no AND atom of a parse holds a delimiter it was split on. */
  lemma ParseAtomsFree(t: string)
    ensures |Parse(t).ors| == |Split(t, OrMark)|
    ensures forall k :: 0 <= k < |Parse(t).ors| ==> !Contains(Parse(t).ors[k], OrMark) && !Contains(Parse(t).ors[k], AndMark)
    ensures forall k :: 0 <= k < |Parse(t).ands| ==> !Contains(Parse(t).ands[k], AndMark)
  {
    var b := Split(t, OrMark);
    var p := Parse(t);
    SplitPiecesFree(t, OrMark);
    forall k | 0 <= k < |p.ors|
      ensures !Contains(p.ors[k], OrMark) && !Contains(p.ors[k], AndMark)
    {
      if Contains(b[k], AndMark) {
        var i := IndexOf(b[k], AndMark).value;
        PrefixKeepsAbsence(b[k], OrMark, i);
      }
    }
    match LastAndBranch(b)
    case None =>
    case Some(i) =>
      if Contains(b[i], AndMark) {
        SplitPiecesFree(SplitOnce(b[i], AndMark).1, AndMark);
      }
  }

  /** When the last branch with a marker spells it in lower or mixed case, that
      branch is kept whole and the AND list is one empty atom. */
  lemma LowercaseAnd(t: string)
    requires LastAndBranch(Split(t, OrMark)).Some?
    requires !Contains(Split(t, OrMark)[LastAndBranch(Split(t, OrMark)).value], AndMark)
    ensures Parse(t).ands == [""]
    ensures Parse(t).ors[LastAndBranch(Split(t, OrMark)).value] == Split(t, OrMark)[LastAndBranch(Split(t, OrMark)).value]
  {
  }

  /** The field name of an atom: the text before its first `:`. */
  function AtomName(a: string): string
  {
    Split(a, Colon)[0]
  }

  /** The expected value of an atom: the text between its first and second `:`.
      An atom without `:` has PHP's null for a value, and a string compares
      equal to null exactly when it is empty, so it is read as "". */
  function AtomValue(a: string): string
  {
    var parts := Split(a, Colon);
    if |parts| >= 2 then parts[1] else ""
  }

  /** An atom starts with `name:value`, neither part holds a `:`, and an atom with
      a single `:` is exactly `name:value`. */
  lemma AtomParts(a: string)
    requires Contains(a, Colon)
    ensures |Split(a, Colon)| >= 2
    ensures !Contains(AtomName(a), Colon) && !Contains(AtomValue(a), Colon)
    ensures StartsWith(a, AtomName(a) + Colon + AtomValue(a))
    ensures !Contains(SplitOnce(a, Colon).1, Colon) ==> a == AtomName(a) + Colon + AtomValue(a)
  {
    AtomSplit(a);
    var name, rest := a[..IndexOf(a, Colon).value], a[IndexOf(a, Colon).value + 1..];
    AtomPieces(a, name, rest);
    PrefixBeforeFirst(a, Colon);
    FirstPiece(rest);
    AtomPrefix(a, name, rest, AtomValue(a));
  }

  /** The name and value of an atom, from the text before and after its first `:`. */
  lemma AtomPieces(a: string, name: string, rest: string)
    requires Split(a, Colon) == [name] + Split(rest, Colon)
    ensures |Split(a, Colon)| >= 2
    ensures AtomName(a) == name && AtomValue(a) == Split(rest, Colon)[0]
  {
  }

  lemma AtomPrefix(a: string, name: string, rest: string, value: string)
    requires a == name + Colon + rest && StartsWith(rest, value)
    ensures StartsWith(a, name + Colon + value)
    ensures rest == value ==> a == name + Colon + value
  {
    assert (name + Colon + value) == a[..|name + Colon + value|];
  }

  /** An atom with a `:` splits into the text before its first `:` and the pieces after it. */
  lemma AtomSplit(a: string)
    requires Contains(a, Colon)
    ensures Split(a, Colon) == [a[..IndexOf(a, Colon).value]] + Split(a[IndexOf(a, Colon).value + 1..], Colon)
    ensures SplitOnce(a, Colon).1 == a[IndexOf(a, Colon).value + 1..]
    ensures a == a[..IndexOf(a, Colon).value] + Colon + a[IndexOf(a, Colon).value + 1..]
  {
    OccursSplit(a, Colon, IndexOf(a, Colon).value);
  }

  /** The first piece of splitting `r` on `:` is a `:`-free prefix of `r`, and all of
      `r` when `r` has no `:`. */
  lemma FirstPiece(r: string)
    ensures !Contains(Split(r, Colon)[0], Colon)
    ensures StartsWith(r, Split(r, Colon)[0])
    ensures !Contains(r, Colon) ==> Split(r, Colon)[0] == r
  {
    match IndexOf(r, Colon)
    case None =>
    case Some(j) =>
      PrefixBeforeFirst(r, Colon);
  }

  /** An atom without `:` names the field spelt by the whole atom and expects an empty value. */
  lemma AtomWithoutColon(a: string)
    requires !Contains(a, Colon)
    ensures AtomName(a) == a && AtomValue(a) == ""
  {
    SplitAbsent(a, Colon);
  }

  /** The atom's field is in the snapshot with the expected value. */
  predicate Holds(a: string, snap: map<string, string>)
  {
    AtomName(a) in snap && snap[AtomName(a)] == AtomValue(a)
  }

  predicate AndFails(p: Showon, snap: map<string, string>)
  {
    exists k :: 0 <= k < |p.ands| && !Holds(p.ands[k], snap)
  }

  predicate OrMatches(p: Showon, snap: map<string, string>)
  {
    exists k :: 0 <= k < |p.ors| && Holds(p.ors[k], snap)
  }

  /** Hidden when an AND atom fails or no OR atom holds. */
  predicate ShouldHide(p: Showon, snap: map<string, string>)
  {
    AndFails(p, snap) || !OrMatches(p, snap)
  }

  /** Every field an atom names is present in the form. */
  predicate AllFieldsPresent(p: Showon, present: set<string>)
  {
    && (forall k :: 0 <= k < |p.ands| ==> AtomName(p.ands[k]) in present)
    && (forall k :: 0 <= k < |p.ors| ==> AtomName(p.ors[k]) in present)
  }

  /** What evaluating a showon attribute does to the form: nothing when PHP
      counts it empty once trimmed ("" or "0") or all its fields are present, otherwise blank it when it shows and
      remove the field when it hides. */
  function Decide(showon: string, snap: map<string, string>, present: set<string>): Action
  {
    var t := Trim(showon);
    if !Truthy(t) then Keep
    else
      var p := Parse(t);
      if AllFieldsPresent(p, present) then Keep
      else if !ShouldHide(p, snap) then BlankShowon
      else RemoveField
  }

  /** The two loops of the form-editing evaluator: every AND atom is checked
      (none is skipped after a failure) and one boolean is collected per OR atom. */
  method EvaluateConditions(p: Showon, snap: map<string, string>, present: set<string>)
    returns (shouldHide: bool, hasAllFields: bool)
    ensures shouldHide == ShouldHide(p, snap)
    ensures hasAllFields == AllFieldsPresent(p, present)
  {
    shouldHide, hasAllFields := CheckAnds(p.ands, snap, present);
    var showFieldOr, orsPresent := CheckOrs(p.ors, snap, present);
    hasAllFields := hasAllFields && orsPresent;
    assert (true in showFieldOr) == OrMatches(p, snap);
    shouldHide := shouldHide || !(true in showFieldOr);
  }

  /** The AND loop of the form-editing evaluator. */
  method CheckAnds(ands: seq<string>, snap: map<string, string>, present: set<string>)
    returns (failed: bool, allPresent: bool)
    ensures failed == (exists j :: 0 <= j < |ands| && !Holds(ands[j], snap))
    ensures allPresent == (forall j :: 0 <= j < |ands| ==> AtomName(ands[j]) in present)
  {
    failed := false;
    allPresent := true;
    for k := 0 to |ands|
      invariant allPresent == (forall j :: 0 <= j < k ==> AtomName(ands[j]) in present)
      invariant failed == (exists j :: 0 <= j < k && !Holds(ands[j], snap))
    {
      var name, value := AtomName(ands[k]), AtomValue(ands[k]);
      allPresent := allPresent && name in present;
      if name !in snap || snap[name] != value {
        failed := true;
      }
    }
  }

  /** The OR loop of the form-editing evaluator: one boolean per atom. */
  method CheckOrs(ors: seq<string>, snap: map<string, string>, present: set<string>)
    returns (showFieldOr: seq<bool>, allPresent: bool)
    ensures |showFieldOr| == |ors|
    ensures forall j :: 0 <= j < |ors| ==> showFieldOr[j] == Holds(ors[j], snap)
    ensures allPresent == (forall j :: 0 <= j < |ors| ==> AtomName(ors[j]) in present)
  {
    showFieldOr := [];
    allPresent := true;
    for k := 0 to |ors|
      invariant allPresent == (forall j :: 0 <= j < k ==> AtomName(ors[j]) in present)
      invariant |showFieldOr| == k
      invariant forall j :: 0 <= j < k ==> showFieldOr[j] == Holds(ors[j], snap)
    {
      var name, value := AtomName(ors[k]), AtomValue(ors[k]);
      allPresent := allPresent && name in present;
      showFieldOr := showFieldOr + [name in snap && snap[name] == value];
    }
  }

  /** The display-time evaluator: it stops at the first failing AND atom, and
      otherwise hides when no OR atom holds. */
  method HideOnDisplay(p: Showon, snap: map<string, string>) returns (hidden: bool)
    ensures hidden == ShouldHide(p, snap)
  {
    for k := 0 to |p.ands|
      invariant forall j :: 0 <= j < k ==> Holds(p.ands[j], snap)
    {
      var name, value := AtomName(p.ands[k]), AtomValue(p.ands[k]);
      if name !in snap || snap[name] != value {
        return true;
      }
    }
    var showFieldOr: seq<bool> := [];
    for k := 0 to |p.ors|
      invariant |showFieldOr| == k
      invariant forall j :: 0 <= j < k ==> showFieldOr[j] == Holds(p.ors[j], snap)
    {
      var name, value := AtomName(p.ors[k]), AtomValue(p.ors[k]);
      showFieldOr := showFieldOr + [name in snap && snap[name] == value];
    }
    assert (true in showFieldOr) == OrMatches(p, snap);
    hidden := !(true in showFieldOr);
  }

  /** A field whose expression names only present fields is left alone, one whose
      expression names a missing field is never left with its showon: it is
      blanked exactly when the expression shows, removed exactly when it hides. */
  lemma DecideCases(showon: string, snap: map<string, string>, present: set<string>)
    requires Truthy(Trim(showon))
    ensures Decide(showon, snap, present) == Keep <==> AllFieldsPresent(Parse(Trim(showon)), present)
    ensures Decide(showon, snap, present) == BlankShowon <==>
      !AllFieldsPresent(Parse(Trim(showon)), present) && !ShouldHide(Parse(Trim(showon)), snap)
    ensures Decide(showon, snap, present) == RemoveField <==>
      !AllFieldsPresent(Parse(Trim(showon)), present) && ShouldHide(Parse(Trim(showon)), snap)
  {
  }

  /** A showon that is all whitespace, or "0" once trimmed, is never acted on:
      PHP's empty() counts both as empty. */
  lemma DecideBlank(showon: string, snap: map<string, string>, present: set<string>)
    requires (forall i :: 0 <= i < |showon| ==> IsTrimmed(showon[i])) || Trim(showon) == "0"
    ensures Decide(showon, snap, present) == Keep
  {
    TrimEmpty(showon);
  }
}
