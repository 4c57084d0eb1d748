/**
 * gen_more.py: the batch job. For every index of a window over the sorted image
 * names of the merged dataset it loads the key's records, asks the renderer for
 * synthesis results and appends them to the `data` group of a fresh output file
 * under the names `<name>_<i>`. Every failure of one key (a missing record, a
 * renderer exception or timeout, a failed write, unreadable console input) is
 * caught and the loop moves on to the next index.
 */
module GenMore {
  import opened Strings
  import opened Utf8
  import opened Store
  import opened Common
  import opened AddMoreData

  /** The first index processed (line 80). */
  const StartIdx: nat := 2300

  /** One synthesis result: composite image, character and word boxes, placed words. */
  datatype Instance = Instance(img: Blob, charBB: Blob, wordBB: Blob, txt: seq<string>)

  /** What lines 95-105 read for a key: image, depth, segmentation and its `area`/`label`. */
  datatype Inputs = Inputs(img: Blob, depth: Blob, seg: Blob, area: AttrValue, labels: AttrValue)

  /**
   * How the resize of lines 100-110 and `render_text` end: results (possibly none),
   * or an exception, TimeoutException from the renderer's time limit included.
   */
  datatype RenderOutcome = Rendered(res: seq<Instance>) | Raised(failure: Failure)

  /** What `input(...)` gives in visualisation mode: a line, or an exception such as EOFError. */
  datatype Reply = Line(text: string) | InputError

  /** Everything one run depends on besides the output file. */
  datatype Job = Job(imnames: seq<string>, db: Merged,
                     synth: (nat, Inputs) -> RenderOutcome, viz: bool, reply: nat -> Reply)

  /** `"%s_%d" % (imgname, i)`. */
  function DName(imgname: string, i: nat): (k: string)
    ensures |k| > |imgname| + 1 && IsDigit(k[|k| - 1])
  {
    imgname + "_" + NatToString(i)
  }

  /** The text of a key before its last underscore (the whole key if it has none). */
  function Stem(key: string): (s: string)
    ensures |s| <= |key|
  {
    match LastIndexOf(key, '_', |key|)
    case None => key
    case Some(p) => key[..p]
  }

  /** The image name can be read back from an output key: `str(i)` holds no underscore. */
  lemma StemOfDName(imgname: string, i: nat)
    ensures Stem(DName(imgname, i)) == imgname
  {
    var k := DName(imgname, i);
    var p := |imgname|;
    assert k[p] == '_';
    assert forall q :: p < q < |k| ==> k[q] == NatToString(i)[q - p - 1];
    assert LastIndexOf(k, '_', |k|) == Some(p);
    assert k[..p] == imgname;
  }

  /** The naming is injective: two writes of one run never pick the same key. */
  lemma DNameInjective(a: string, i: nat, b: string, j: nat)
    requires DName(a, i) == DName(b, j)
    ensures a == b && i == j
  {
    StemOfDName(a, i);
    StemOfDName(b, j);
    var k := DName(a, i);
    assert NatToString(i) == k[|a| + 1..];
    assert NatToString(j) == k[|b| + 1..];
    NatToStringInjective(i, j);
  }

  /** The dataset lines 49-57 leave for one result: the image, both boxes and the encoded words. */
  function ToEntry(inst: Instance): Dataset {
    Dataset(inst.img, map["charBB" := Numbers(inst.charBB), "wordBB" := Numbers(inst.wordBB),
                          "txt" := ByteStrings(EncodeAll(inst.txt))])
  }

  /** A stored entry gives back the result's image, boxes and, decoded, exactly its words. */
  lemma EntryRoundTrip(inst: Instance)
    ensures ToEntry(inst).data == inst.img
    ensures ToEntry(inst).attrs.Keys == {"charBB", "wordBB", "txt"}
    ensures ToEntry(inst).attrs["charBB"] == Numbers(inst.charBB)
    ensures ToEntry(inst).attrs["wordBB"] == Numbers(inst.wordBB)
    ensures ToEntry(inst).attrs["txt"].ByteStrings?
    ensures |ToEntry(inst).attrs["txt"].items| == |inst.txt|
    ensures DecodeAll(ToEntry(inst).attrs["txt"].items) == Some(inst.txt)
  {
    DecodeAllEncodeAll(inst.txt);
  }

  /** The loop of `add_res_to_db` (lines 44-57) on the group's entries; false once a write failed. */
  function Persist(out: map<string, Dataset>, imgname: string, res: seq<Instance>): (map<string, Dataset>, bool)
    decreases |res|
  {
    if |res| == 0 then (out, true)
    else
      var prev := Persist(out, imgname, res[..|res| - 1]);
      var key := DName(imgname, |res| - 1);
      if !prev.1 || key in prev.0 then (prev.0, false)
      else (prev.0[key := ToEntry(res[|res| - 1])], true)
  }

  /** The entries `add_res_to_db` means to add: one per result, named `<imgname>_<i>`. */
  function Added(imgname: string, res: seq<Instance>): map<string, Dataset>
    decreases |res|
  {
    if |res| == 0 then map[]
    else Added(imgname, res[..|res| - 1])[DName(imgname, |res| - 1) := ToEntry(res[|res| - 1])]
  }

  /** Result `i` is stored under `<imgname>_<i>`. */
  lemma {:induction false} AddedAt(imgname: string, res: seq<Instance>, i: nat)
    requires i < |res|
    ensures DName(imgname, i) in Added(imgname, res)
    ensures Added(imgname, res)[DName(imgname, i)] == ToEntry(res[i])
    decreases |res|
  {
    if i < |res| - 1 {
      AddedAt(imgname, res[..|res| - 1], i);
      if DName(imgname, i) == DName(imgname, |res| - 1) {
        DNameInjective(imgname, i, imgname, |res| - 1);
      }
    }
  }

  /** Nothing else is stored: every key is `<imgname>_<i>` for a result index `i`. */
  lemma {:induction false} AddedKeys(imgname: string, res: seq<Instance>, key: string)
    requires key in Added(imgname, res)
    ensures exists i :: 0 <= i < |res| && key == DName(imgname, i)
    decreases |res|
  {
    if key != DName(imgname, |res| - 1) {
      AddedKeys(imgname, res[..|res| - 1], key);
    }
  }

  /** No name beyond the results is used. */
  lemma {:induction false} AddedBeyond(imgname: string, res: seq<Instance>, j: nat)
    requires |res| <= j
    ensures DName(imgname, j) !in Added(imgname, res)
    decreases |res|
  {
    if |res| > 0 {
      AddedBeyond(imgname, res[..|res| - 1], j);
      if DName(imgname, j) == DName(imgname, |res| - 1) {
        DNameInjective(imgname, j, imgname, |res| - 1);
      }
    }
  }

  /** Once a write has failed, the rest of the loop does not run. */
  lemma {:induction false} PersistStopped(out: map<string, Dataset>, imgname: string, res: seq<Instance>, i: nat)
    requires i <= |res|
    requires !Persist(out, imgname, res[..i]).1
    ensures Persist(out, imgname, res) == Persist(out, imgname, res[..i])
    decreases |res|
  {
    if i < |res| {
      assert res[..|res| - 1][..i] == res[..i];
      PersistStopped(out, imgname, res[..|res| - 1], i);
    } else {
      assert res[..i] == res;
    }
  }

  /** Updating a union is updating its right operand. */
  lemma UpdateUnion(a: map<string, Dataset>, b: map<string, Dataset>, k: string, v: Dataset)
    ensures (a + b)[k := v] == a + b[k := v]
  {
  }

  /**
   * When none of the names is taken, `add_res_to_db` writes exactly `len(res)`
   * entries, `<imgname>_0` to `<imgname>_<len-1>`, and changes nothing else.
   */
  lemma {:induction false} PersistFresh(out: map<string, Dataset>, imgname: string, res: seq<Instance>)
    requires forall i :: 0 <= i < |res| ==> DName(imgname, i) !in out
    ensures Persist(out, imgname, res) == (out + Added(imgname, res), true)
    decreases |res|
  {
    if |res| > 0 {
      var init := res[..|res| - 1];
      PersistFresh(out, imgname, init);
      var key := DName(imgname, |res| - 1);
      AddedBeyond(imgname, init, |res| - 1);
      assert key !in out + Added(imgname, init);
      assert Added(imgname, res) == Added(imgname, init)[key := ToEntry(res[|res| - 1])];
      UpdateUnion(out, Added(imgname, init), key, ToEntry(res[|res| - 1]));
    } else {
      assert out + map[] == out;
    }
  }

  /** The write loop only adds entries, and only under the names `<imgname>_<i>` of its results. */
  lemma {:induction false} PersistGrows(out: map<string, Dataset>, imgname: string, res: seq<Instance>)
    ensures forall key :: key in out ==> key in Persist(out, imgname, res).0 && Persist(out, imgname, res).0[key] == out[key]
    ensures forall key :: key in Persist(out, imgname, res).0 && key !in out ==>
              exists j :: 0 <= j < |res| && key == DName(imgname, j)
    decreases |res|
  {
    if |res| > 0 {
      var n := |res| - 1;
      PersistGrows(out, imgname, res[..n]);
      var prev := Persist(out, imgname, res[..n]);
      forall key | key in Persist(out, imgname, res).0 && key !in out
        ensures exists j :: 0 <= j < |res| && key == DName(imgname, j)
      {
        if key in prev.0 {
          var j :| 0 <= j < n && key == DName(imgname, j);
        } else {
          assert key == DName(imgname, n);
        }
      }
    }
  }

  /** Lines 39-57, writing into the `data` group in place; ok is false if a write raised. */
  method AddResToDb(imgname: string, res: seq<Instance>, db: Group) returns (ok: bool)
    modifies db
    ensures (db.entries, ok) == Persist(old(db.entries), imgname, res)
  {
    ghost var start := db.entries;
    var i := 0;
    while i < |res|
      invariant 0 <= i <= |res|
      invariant Persist(start, imgname, res[..i]) == (db.entries, true)
    {
      assert res[..i + 1][..i] == res[..i];
      ghost var before := db.entries;
      var dname := imgname + "_" + NatToString(i);
      assert dname == DName(imgname, i);
      var created := db.CreateDataset(dname, res[i].img);
      if !created {
        PersistStopped(start, imgname, res, i + 1);
        return false;
      }
      db.SetAttr(dname, "charBB", Numbers(res[i].charBB));
      db.SetAttr(dname, "wordBB", Numbers(res[i].wordBB));
      var encoded := EncodeAll(res[i].txt);
      db.SetAttr(dname, "txt", ByteStrings(encoded));
      assert db.entries == before[dname := ToEntry(res[i])];
      i := i + 1;
    }
    assert res[..i] == res;
    ok := true;
  }

  /** Lines 95-105; None where a record or attribute is missing (KeyError). */
  function Load(db: Merged, name: string): (r: Option<Inputs>)
    ensures r.Some? <==> name in db.image && name in db.depth && name in db.seg
                         && "area" in db.seg[name].attrs && "label" in db.seg[name].attrs
  {
    if name !in db.image || name !in db.depth || name !in db.seg then None
    else
      var s := db.seg[name];
      if "area" !in s.attrs || "label" !in s.attrs then None
      else Some(Inputs(db.image[name].data, db.depth[name].data, s.data, s.attrs["area"], s.attrs["label"]))
  }

  /**
   * A merged dataset's key loads exactly when it got both a depth and a mask entry and
   * the mask carried `area` and `label`; every other image key fails at load time.
   */
  lemma LoadAfterMerge(names: seq<string>, load: string -> Blob,
                       depthDb: map<string, Dataset>, mask: map<string, Dataset>, n: string)
    requires n in MergeAll(names, load, depthDb, mask).image
    ensures Load(MergeAll(names, load, depthDb, mask), n).Some? <==>
              n in depthDb && n in mask && "area" in mask[n].attrs && "label" in mask[n].attrs
  {
    MergeDepth(names, load, depthDb, mask, n);
    MergeSeg(names, load, depthDb, mask, n);
  }

  /** The state between iterations: the `data` group, and whether the loop was left by `break`. */
  datatype RunState = RunState(out: map<string, Dataset>, quit: bool)

  /** One iteration of lines 87-129 for index `i`, on the `data` group `out`. */
  function ProcessKey(job: Job, out: map<string, Dataset>, i: nat): RunState
    requires i < |job.imnames|
  {
    var name := job.imnames[i];
    if name in out then RunState(out, false)
    else match Load(job.db, name)
      case None => RunState(out, false)
      case Some(inputs) =>
        match job.synth(i, inputs)
        case Raised(_) => RunState(out, false)
        case Rendered(res) =>
          var written := if |res| > 0 then Persist(out, name, res) else (out, true);
          if !written.1 then RunState(written.0, false)
          else if !job.viz then RunState(written.0, false)
          else match job.reply(i)
            case InputError => RunState(written.0, false)
            case Line(text) => RunState(written.0, 'q' in text)
  }

  /** The state after the iterations `lo` to `i - 1` of the loop, starting from the empty group. */
  function RunTo(job: Job, lo: nat, i: nat): RunState
    requires i <= lo || i <= |job.imnames|
    decreases i
  {
    if i <= lo then RunState(map[], false)
    else
      var st := RunTo(job, lo, i - 1);
      if st.quit then st else ProcessKey(job, st.out, i - 1)
  }

  function Min(a: int, b: int): int {
    if a <= b then a else b
  }

  /** With at most 2300 image names the window of line 80 is empty: nothing is written. */
  lemma FewImagesNoOutput(job: Job, numImg: int)
    requires |job.imnames| <= StartIdx
    ensures var n := if numImg < 0 then |job.imnames| else numImg;
      RunTo(job, StartIdx, Min(n, |job.imnames|)) == RunState(map[], false)
  {
  }

  /** Lines 87-129 for one index, on the open `data` group; true when the user asked to quit. */
  method ProcessOne(job: Job, outDb: Group, i: nat) returns (quit: bool)
    requires i < |job.imnames|
    modifies outDb
    ensures RunState(outDb.entries, quit) == ProcessKey(job, old(outDb.entries), i)
  {
    quit := false;
    var name := job.imnames[i];
    if name in outDb.entries {
      return;
    }
    var inputs := Load(job.db, name);
    if inputs.None? {
      return;
    }
    var outcome := job.synth(i, inputs.value);
    if outcome.Raised? {
      return;
    }
    var res := outcome.res;
    if |res| > 0 {
      var ok := AddResToDb(name, res, outDb);
      if !ok {
        return;
      }
    }
    if job.viz {
      var answer := job.reply(i);
      if answer.Line? {
        quit := 'q' in answer.text;
      }
    }
  }

  /** After a `break` nothing more runs. */
  lemma {:induction false} QuitStays(job: Job, lo: nat, i: nat, j: nat)
    requires lo < i <= j <= |job.imnames|
    requires RunTo(job, lo, i).quit
    ensures RunTo(job, lo, j) == RunTo(job, lo, i)
    decreases j
  {
    if j > i {
      QuitStays(job, lo, i, j - 1);
    }
  }

  /**
   * `main` (lines 63-131) with `numImg` the value of the global NUM_IMG on entry;
   * returns the `data` group as closed, and NUM_IMG afterwards.
   */
  method GenMain(job: Job, numImg: int) returns (out: map<string, Dataset>, numImgAfter: int)
    requires StrictlySorted(job.imnames)
    requires forall n :: n in job.db.image.Keys <==> n in job.imnames
    ensures numImgAfter == if numImg < 0 then |job.imnames| else numImg
    ensures out == RunTo(job, StartIdx, Min(numImgAfter, |job.imnames|)).out
  {
    var n := |job.imnames|;
    numImgAfter := numImg;
    if numImgAfter < 0 {
      numImgAfter := n;
    }
    var endIdx := Min(numImgAfter, n);
    var outDb := new Group();
    var i := StartIdx;
    while i < endIdx
      invariant StartIdx <= i
      invariant i == StartIdx || i <= endIdx
      invariant RunTo(job, StartIdx, i) == RunState(outDb.entries, false)
    {
      var quit := ProcessOne(job, outDb, i);
      if quit {
        QuitStays(job, StartIdx, i + 1, endIdx);
        return outDb.entries, numImgAfter;
      }
      i := i + 1;
    }
    out := outDb.entries;
  }

  /** `after` keeps every entry of `before` and adds only keys `<name>_<i>`. */
  ghost predicate Extends(before: map<string, Dataset>, after: map<string, Dataset>, name: string) {
    && (forall key :: key in before ==> key in after && after[key] == before[key])
    && (forall key :: key in after && key !in before ==> exists j: nat :: key == DName(name, j))
  }

  /** One iteration only adds entries, and only under the current image's names. */
  lemma StepGrows(job: Job, out: map<string, Dataset>, i: nat)
    requires i < |job.imnames|
    ensures Extends(out, ProcessKey(job, out, i).out, job.imnames[i])
  {
    var name := job.imnames[i];
    var inputs := Load(job.db, name);
    if name !in out && inputs.Some? && job.synth(i, inputs.value).Rendered? {
      PersistGrows(out, name, job.synth(i, inputs.value).res);
    }
  }

  /** The iteration for index `i - 1`, as RunTo takes it. */
  lemma RunStep(job: Job, lo: nat, i: nat)
    requires lo < i <= |job.imnames|
    ensures RunTo(job, lo, i - 1).quit ==> RunTo(job, lo, i) == RunTo(job, lo, i - 1)
    ensures Extends(RunTo(job, lo, i - 1).out, RunTo(job, lo, i).out, job.imnames[i - 1])
  {
    var st := RunTo(job, lo, i - 1);
    if !st.quit {
      StepGrows(job, st.out, i - 1);
    }
  }

  /**
   * Every key in the group is `<name>_<i>` for a name at an index already
   * visited.
   */
  lemma {:induction false} RunKeys(job: Job, lo: nat, i: nat)
    requires lo <= i <= |job.imnames|
    ensures forall key :: key in RunTo(job, lo, i).out ==>
              exists m, j: nat :: lo <= m < i && key == DName(job.imnames[m], j)
    decreases i
  {
    if i > lo {
      RunKeys(job, lo, i - 1);
      RunStep(job, lo, i);
      var before := RunTo(job, lo, i - 1).out;
      var after := RunTo(job, lo, i).out;
      forall key | key in after
        ensures exists m, j: nat :: lo <= m < i && key == DName(job.imnames[m], j)
      {
        if key in before {
          var m, j: nat :| lo <= m < i - 1 && key == DName(job.imnames[m], j);
        } else {
          var j: nat :| key == DName(job.imnames[i - 1], j);
          assert key == DName(job.imnames[i - 1], j);
        }
      }
    }
  }

  /** Every entry of `a` is in `b`, unchanged. */
  ghost predicate SubMap(a: map<string, Dataset>, b: map<string, Dataset>) {
    forall key :: key in a ==> key in b && b[key] == a[key]
  }

  /** Chaining a sub-map with an extension. */
  lemma SubMapExtends(a: map<string, Dataset>, b: map<string, Dataset>, c: map<string, Dataset>, name: string)
    requires SubMap(a, b) && Extends(b, c, name)
    ensures SubMap(a, c)
  {
  }

  /** The group only grows: what one iteration holds, every later one holds unchanged. */
  lemma {:induction false} RunGrows(job: Job, lo: nat, j: nat, i: nat)
    requires lo <= j <= i <= |job.imnames|
    ensures SubMap(RunTo(job, lo, j).out, RunTo(job, lo, i).out)
    decreases i
  {
    if i > j {
      RunGrows(job, lo, j, i - 1);
      RunStep(job, lo, i);
      SubMapExtends(RunTo(job, lo, j).out, RunTo(job, lo, i - 1).out, RunTo(job, lo, i).out, job.imnames[i - 1]);
    }
  }

  /**
   * No write of a run collides: at the iteration for index `k` none of the names
   * `<imnames[k]>_<i>` is taken yet, so `add_res_to_db` succeeds and writes exactly
   * its results there.
   */
  lemma NoCollision(job: Job, lo: nat, k: nat, res: seq<Instance>)
    requires StrictlySorted(job.imnames)
    requires lo <= k < |job.imnames|
    ensures forall i :: 0 <= i < |res| ==> DName(job.imnames[k], i) !in RunTo(job, lo, k).out
    ensures Persist(RunTo(job, lo, k).out, job.imnames[k], res)
            == (RunTo(job, lo, k).out + Added(job.imnames[k], res), true)
  {
    var out := RunTo(job, lo, k).out;
    var name := job.imnames[k];
    RunKeys(job, lo, k);
    forall i | 0 <= i < |res| ensures DName(name, i) !in out {
      if DName(name, i) in out {
        var m, j: nat :| lo <= m < k && DName(name, i) == DName(job.imnames[m], j);
        DNameInjective(name, i, job.imnames[m], j);
        SortedDistinct(job.imnames, m, k);
      }
    }
    PersistFresh(out, name, res);
  }

  /**
   * What one index adds: nothing when it is skipped, fails to load or the renderer
   * raises or places nothing; otherwise exactly `<name>_0 .. <name>_<len-1>`.
   */
  lemma StepEffect(job: Job, lo: nat, k: nat)
    requires StrictlySorted(job.imnames)
    requires lo <= k < |job.imnames|
    requires !RunTo(job, lo, k).quit
    ensures var before := RunTo(job, lo, k).out;
            var name := job.imnames[k];
            var after := RunTo(job, lo, k + 1).out;
            if name in before || Load(job.db, name).None? || job.synth(k, Load(job.db, name).value).Raised?
            then after == before
            else after == before + Added(name, job.synth(k, Load(job.db, name).value).res)
  {
    var name := job.imnames[k];
    var inputs := Load(job.db, name);
    if name !in RunTo(job, lo, k).out && inputs.Some? && job.synth(k, inputs.value).Rendered? {
      NoCollision(job, lo, k, job.synth(k, inputs.value).res);
    }
  }

  /** Without visualisation the loop is never left early: it runs to the end of the window. */
  lemma {:induction false} NoVizNoQuit(job: Job, lo: nat, i: nat)
    requires !job.viz
    requires i <= lo || i <= |job.imnames|
    ensures !RunTo(job, lo, i).quit
    decreases i
  {
    if i > lo {
      NoVizNoQuit(job, lo, i - 1);
    }
  }

  /**
   * The skip check at line 90 never fires when every key ends with `.jpg`, as the
   * merge produces them: a written key ends with a digit.
   */
  lemma SkipNeverFiresForJpg(job: Job, lo: nat, k: nat)
    requires forall n :: n in job.imnames ==> IsJpg(n)
    requires lo <= k < |job.imnames|
    ensures job.imnames[k] !in RunTo(job, lo, k).out
  {
    RunKeys(job, lo, k);
    var name := job.imnames[k];
    assert IsJpg(name);
    assert name[|name| - 1] == ".jpg"[3];
  }

  /** A concrete renderer result, used by the scenario lemmas below. */
  const Sample: Instance := Instance([1], [2], [3], ["Straße"])

  /** A record with both attributes, so that Load succeeds. */
  const Rec: Dataset := Dataset([0], map["area" := Numbers([5]), "label" := Numbers([1])])

  /** A job over `names` whose dataset holds every name and whose renderer always places one instance. */
  function OneEachJob(names: seq<string>): Job {
    var m := map n | n in names :: Rec;
    Job(names, Merged(m, m, m), (i: nat, inp: Inputs) => Rendered([Sample]), false, (i: nat) => InputError)
  }

  /**
   * The skip check tests the bare image name against keys of the form `name_i`: with
   * image names `a` and `a_0`, over a window that starts at index 0, the entry
   * written for `a` makes the job skip `a_0`.
   */
  lemma SkipFiresWithinRun()
    ensures RunTo(OneEachJob(["a", "a_0"]), 0, 2).out == map["a_0" := ToEntry(Sample)]
  {
    var job := OneEachJob(["a", "a_0"]);
    assert LexLess("a", "a_0") by {
      assert "a"[1..] == "" && "a_0"[1..] == "_0";
    }
    assert DName("a", 0) == "a_0";
    assert Load(job.db, "a").Some? && Load(job.db, "a_0").Some?;
    assert Added("a", [Sample]) == map["a_0" := ToEntry(Sample)] by {
      assert [Sample][..0] == [];
    }
    StepEffect(job, 0, 0);
    assert RunTo(job, 0, 1).out == map["a_0" := ToEntry(Sample)];
    NoVizNoQuit(job, 0, 1);
    StepEffect(job, 0, 1);
  }

  /**
   * Scenario: keys A, B, C; the renderer places two instances for A, none for B
   * and one for C. Over a window that starts at index 0 the group then holds exactly
   * A_0, A_1 and C_0; the program's own window, which starts at 2300, writes nothing.
   */
  lemma ScenarioABC()
    ensures RunTo(AbcJob(), 0, 3).out.Keys == {"A_0", "A_1", "C_0"}
    ensures RunTo(AbcJob(), StartIdx, 3).out == map[]
  {
    AbcAfterA();
    AbcAfterB();
    AbcAfterC();
  }

  /** The two results placed for A. */
  const AbcA: map<string, Dataset> := map["A_0" := ToEntry(Sample), "A_1" := ToEntry(Sample)]

  lemma AbcSorted()
    ensures StrictlySorted(AbcJob().imnames)
  {
    assert LexLess("A", "B") && LexLess("A", "C") && LexLess("B", "C");
  }

  /** First step of the scenario: A_0 and A_1 are written. */
  lemma AbcAfterA()
    ensures RunTo(AbcJob(), 0, 1).out == AbcA
  {
    var job := AbcJob();
    AbcSorted();
    assert Load(job.db, "A").Some?;
    assert DName("A", 0) == "A_0" && DName("A", 1) == "A_1";
    assert [Sample, Sample][..1] == [Sample] && [Sample][..0] == [];
    assert Added("A", [Sample]) == map["A_0" := ToEntry(Sample)];
    assert Added("A", [Sample, Sample]) == AbcA;
    StepEffect(job, 0, 0);
  }

  /** Second step: B's empty result writes nothing. */
  lemma AbcAfterB()
    ensures RunTo(AbcJob(), 0, 2).out == AbcA
  {
    var job := AbcJob();
    AbcSorted();
    AbcAfterA();
    assert Load(job.db, "B").Some?;
    NoVizNoQuit(job, 0, 1);
    StepEffect(job, 0, 1);
  }

  /** Third step: C_0 is added. */
  lemma AbcAfterC()
    ensures RunTo(AbcJob(), 0, 3).out == AbcA + map["C_0" := ToEntry(Sample)]
  {
    var job := AbcJob();
    AbcSorted();
    AbcAfterB();
    assert Load(job.db, "C").Some?;
    assert DName("C", 0) == "C_0";
    assert [Sample][..0] == [];
    assert Added("C", [Sample]) == map["C_0" := ToEntry(Sample)];
    NoVizNoQuit(job, 0, 2);
    StepEffect(job, 0, 2);
  }

  /** The scenario's job: three keys, renderer results of sizes 2, 0 and 1, no visualisation. */
  function AbcJob(): Job {
    var m := map["A" := Rec, "B" := Rec, "C" := Rec];
    Job(["A", "B", "C"], Merged(m, m, m),
        (i: nat, inp: Inputs) => Rendered(if i == 0 then [Sample, Sample] else if i == 1 then [] else [Sample]),
        false, (i: nat) => InputError)
  }
}
