/**
 * Phase 2 of imgaug.py: every non-hidden entry of the label walk is read as
 * UTF-8 text and its lines are written, unchanged, to "aug_" + its basename in
 * the flat output label directory. A UnicodeDecodeError is caught: a warning
 * is recorded and nothing is written for that file.
 */
module LabelPhase {
  import opened Paths
  import opened Walk
  import opened Outcome

  /**
   * What open(path, encoding='utf-8') followed by readlines() gives: the list
   * of lines, a UnicodeDecodeError, or any other exception (which nothing catches).
   */
  datatype LabelRead = Lines(lines: seq<string>) | NotUtf8 | ReadFailed

  /** A file name listed by the label walk and what reading it would give. */
  datatype LabelEntry = LabelEntry(name: string, read: LabelRead)

  /**
   * The output label directory (file name to its lines), the names warned
   * about so far in order, and whether the run goes on.
   */
  datatype LabelState = LabelState(out: map<string, seq<string>>, warnings: seq<string>, status: Status)

  /** One iteration of the inner loop. */
  function LabelStep(st: LabelState, e: LabelEntry): (r: LabelState)
    requires st.status == Running
    ensures IsHiddenFile(e.name) ==> r == st
    ensures r.out.Keys <= st.out.Keys + {AugName(e.name)}
    ensures forall k :: k in st.out && k != AugName(e.name) ==> k in r.out && r.out[k] == st.out[k]
    ensures r.status != Running ==> r.out == st.out && r.warnings == st.warnings
    ensures r.status == Running || r.status == Aborted(LabelReadFailed)
    ensures r.status != Running <==> !IsHiddenFile(e.name) && e.read == ReadFailed
    ensures !IsHiddenFile(e.name) && e.read == NotUtf8 ==> r == st.(warnings := st.warnings + [e.name])
    ensures !IsHiddenFile(e.name) && e.read.Lines? ==> r == st.(out := st.out[AugName(e.name) := e.read.lines])
  {
    if IsHiddenFile(e.name) then st
    else
      match e.read
      case Lines(ls) => st.(out := st.out[AugName(e.name) := ls])
      case NotUtf8 => st.(warnings := st.warnings + [e.name])
      case ReadFailed => st.(status := Aborted(LabelReadFailed))
  }

  /** The state after the loop has processed the entries es, starting from st; an abort ends it. */
  function LabelsAfter(es: seq<LabelEntry>, st: LabelState): (r: LabelState)
    ensures st.status != Running ==> r == st
    ensures st.out.Keys <= r.out.Keys
    ensures st.warnings <= r.warnings
    ensures st.status == Running ==> r.status == Running || r.status == Aborted(LabelReadFailed)
  {
    if es == [] || st.status != Running then st
    else LabelsAfter(es[1..], LabelStep(st, es[0]))
  }

  /** Processing a + b is processing a, then b from where a left off. */
  lemma {:induction false} LabelsAfterAppend(a: seq<LabelEntry>, b: seq<LabelEntry>, st: LabelState)
    ensures LabelsAfter(a + b, st) == LabelsAfter(b, LabelsAfter(a, st))
    decreases |a|
  {
    if a != [] && st.status == Running {
      assert (a + b)[0] == a[0] && (a + b)[1..] == a[1..] + b;
      LabelsAfterAppend(a[1..], b, LabelStep(st, a[0]));
    } else if a == [] {
      assert a + b == b;
    }
  }

  /** The run seen from entry i: what came before, entry i itself, and what follows. */
  lemma LabelsAfterSplit(es: seq<LabelEntry>, i: nat, st: LabelState)
    requires i < |es| && LabelsAfter(es[..i], st).status == Running
    ensures LabelsAfter(es, st) == LabelsAfter(es[i + 1..], LabelStep(LabelsAfter(es[..i], st), es[i]))
  {
    assert es == es[..i] + ([es[i]] + es[i + 1..]);
    LabelsAfterAppend(es[..i], [es[i]] + es[i + 1..], st);
    assert ([es[i]] + es[i + 1..])[1..] == es[i + 1..];
  }

  /** The inner loop of the label phase: the files of one directory. */
  method MirrorDirectory(files: seq<LabelEntry>, out0: map<string, seq<string>>, warnings0: seq<string>)
    returns (st: LabelState)
    ensures st == LabelsAfter(files, LabelState(out0, warnings0, Running))
  {
    ghost var spec := LabelsAfter(files, LabelState(out0, warnings0, Running));
    var out := out0;
    var warnings := warnings0;
    for i := 0 to |files|
      invariant spec == LabelsAfter(files[i..], LabelState(out, warnings, Running))
    {
      assert files[i..][1..] == files[i + 1..];
      var name := files[i].name;
      if IsHiddenFile(name) {
        continue;
      }
      match files[i].read
      case Lines(lines) =>
        out := out[AugName(name) := lines];
      case NotUtf8 =>
        warnings := warnings + [name];
      case ReadFailed =>
        return LabelState(out, warnings, Aborted(LabelReadFailed));
    }
    return LabelState(out, warnings, Running);
  }

  /** The outer loop of the label phase over the directories of the walk; an abort ends the run. */
  method MirrorLabels(walk: seq<WalkDir<LabelEntry>>, out0: map<string, seq<string>>) returns (st: LabelState)
    ensures st == LabelsAfter(Flatten(walk), LabelState(out0, [], Running))
  {
    ghost var spec := LabelsAfter(Flatten(walk), LabelState(out0, [], Running));
    var out := out0;
    var warnings := [];
    for d := 0 to |walk|
      invariant spec == LabelsAfter(Flatten(walk[d..]), LabelState(out, warnings, Running))
    {
      assert walk[d..][0] == walk[d] && walk[d..][1..] == walk[d + 1..];
      LabelsAfterAppend(walk[d].files, Flatten(walk[d + 1..]), LabelState(out, warnings, Running));
      st := MirrorDirectory(walk[d].files, out, warnings);
      if st.status != Running {
        return;
      }
      out, warnings := st.out, st.warnings;
    }
    return LabelState(out, warnings, Running);
  }

  /**
   * Only a read failure other than a decoding error stops the label phase:
   * when no visible label fails that way, the loop runs to the end, past
   * every undecodable label.
   */
  lemma {:induction false} LabelRunCompletes(es: seq<LabelEntry>, st: LabelState)
    requires st.status == Running
    requires forall e :: e in es && !IsHiddenFile(e.name) ==> e.read != ReadFailed
    ensures LabelsAfter(es, st).status == Running
  {
    if es != [] {
      assert es[0] in es;
      assert forall e :: e in es[1..] ==> e in es;
      LabelRunCompletes(es[1..], LabelStep(st, es[0]));
    }
  }

  /** Does label e, if the run reaches it and goes on, write an output file? */
  predicate LabelWrites(e: LabelEntry)
  {
    !IsHiddenFile(e.name) && e.read.Lines?
  }

  /** The output names of the labels in es that read successfully. */
  function MirroredKeys(es: seq<LabelEntry>): set<string>
  {
    if es == [] then {}
    else
      var here := if LabelWrites(es[0]) then {AugName(es[0].name)} else {};
      here + MirroredKeys(es[1..])
  }

  /** The names of the labels in es that failed UTF-8 decoding, in walk order. */
  function UndecodableNames(es: seq<LabelEntry>): seq<string>
  {
    if es == [] then []
    else
      var here := if !IsHiddenFile(es[0].name) && es[0].read == NotUtf8 then [es[0].name] else [];
      here + UndecodableNames(es[1..])
  }

  /**
   * The output label directory keeps what it held and gains only the "aug_"
   * names of readable labels; a run that completes gains exactly those names.
   */
  lemma {:induction false} LabelOutputKeys(es: seq<LabelEntry>, st: LabelState)
    requires st.status == Running
    ensures LabelsAfter(es, st).out.Keys <= st.out.Keys + MirroredKeys(es)
    ensures LabelsAfter(es, st).status == Running ==>
      LabelsAfter(es, st).out.Keys == st.out.Keys + MirroredKeys(es)
  {
    if es != [] {
      var next := LabelStep(st, es[0]);
      if next.status == Running {
        LabelOutputKeys(es[1..], next);
      }
    }
  }

  /** A run that completes has warned exactly about the undecodable labels, in walk order. */
  lemma {:induction false} LabelWarnings(es: seq<LabelEntry>, st: LabelState)
    requires st.status == Running
    ensures LabelsAfter(es, st).status == Running ==>
      LabelsAfter(es, st).warnings == st.warnings + UndecodableNames(es)
  {
    if es != [] {
      var next := LabelStep(st, es[0]);
      if next.status == Running {
        LabelWarnings(es[1..], next);
        var here := if !IsHiddenFile(es[0].name) && es[0].read == NotUtf8 then [es[0].name] else [];
        assert next.warnings == st.warnings + here;
        assert UndecodableNames(es) == here + UndecodableNames(es[1..]);
      }
    }
  }

  /** Every name the label phase adds starts with "aug_". */
  lemma MirroredKeysAugmented(es: seq<LabelEntry>, st: LabelState)
    requires st.status == Running
    ensures forall k :: k in LabelsAfter(es, st).out && k !in st.out ==>
      |k| >= 4 && k[..4] == AugPrefix
  {
    LabelOutputKeys(es, st);
    MirroredKeysHaveNames(es);
  }

  lemma {:induction false} MirroredKeysHaveNames(es: seq<LabelEntry>)
    ensures forall k :: k in MirroredKeys(es) ==> |k| >= 4 && k[..4] == AugPrefix
  {
    if es != [] {
      MirroredKeysHaveNames(es[1..]);
    }
  }

  /**
   * An output label that no writing label maps to keeps its content: hidden,
   * undecodable and unreadable labels leave it alone.
   */
  lemma {:induction false} UntouchedLabelKept(es: seq<LabelEntry>, st: LabelState, k: string)
    requires k in st.out
    requires forall i :: 0 <= i < |es| && LabelWrites(es[i]) ==> AugName(es[i].name) != k
    ensures k in LabelsAfter(es, st).out && LabelsAfter(es, st).out[k] == st.out[k]
  {
    if es != [] && st.status == Running {
      assert LabelWrites(es[0]) ==> AugName(es[0].name) != k;
      var rest := es[1..];
      forall i | 0 <= i < |rest| && LabelWrites(rest[i])
        ensures AugName(rest[i].name) != k
      {
        assert rest[i] == es[i + 1];
      }
      UntouchedLabelKept(rest, LabelStep(st, es[0]), k);
    }
  }

  /**
   * A visible label that reads as the lines ls is found, verbatim, under
   * "aug_" + its name, provided the run reached it and no later visible label
   * has the same basename.
   */
  lemma LabelMirrored(es: seq<LabelEntry>, st: LabelState, i: nat)
    requires st.status == Running && i < |es|
    requires !IsHiddenFile(es[i].name) && es[i].read.Lines?
    requires LabelsAfter(es[..i], st).status == Running
    requires forall j :: i < j < |es| && LabelWrites(es[j]) ==> es[j].name != es[i].name
    ensures var r := LabelsAfter(es, st).out;
      AugName(es[i].name) in r && r[AugName(es[i].name)] == es[i].read.lines
  {
    var e := es[i];
    LabelsAfterSplit(es, i, st);
    var after := LabelStep(LabelsAfter(es[..i], st), e);
    var rest := es[i + 1..];
    forall j | 0 <= j < |rest| && LabelWrites(rest[j])
      ensures AugName(rest[j].name) != AugName(e.name)
    {
      assert rest[j] == es[i + 1 + j];
      AugNameInjective(rest[j].name, e.name);
    }
    UntouchedLabelKept(rest, after, AugName(e.name));
  }

  /**
   * A label that fails UTF-8 decoding produces no output file: when no visible
   * label with the same name reads successfully, "aug_" + its name is in the
   * output only if it was there before.
   */
  lemma UndecodableLabelNotWritten(es: seq<LabelEntry>, st: LabelState, n: string)
    requires st.status == Running
    requires forall e :: e in es && e.name == n && !IsHiddenFile(n) ==> !e.read.Lines?
    ensures AugName(n) in LabelsAfter(es, st).out ==> AugName(n) in st.out
  {
    LabelOutputKeys(es, st);
    MirroredKeysExclude(es, n);
  }

  lemma {:induction false} MirroredKeysExclude(es: seq<LabelEntry>, n: string)
    requires forall e :: e in es && e.name == n && !IsHiddenFile(n) ==> !e.read.Lines?
    ensures AugName(n) !in MirroredKeys(es)
  {
    if es != [] {
      assert es[0] in es;
      AugNameInjective(es[0].name, n);
      MirroredKeysExclude(es[1..], n);
    }
  }
}
