/**
 * The merge of add_more_data.py: background images from a directory listing,
 * depth maps from the depth file and segmentation masks from the `mask` group of
 * the segmentation file are written into one fresh file with groups `image`,
 * `depth` and `seg`. A name missing from the depth file, or from the mask
 * group, ends that name's iteration early (`continue` on KeyError), after the
 * writes already made for it.
 */
module AddMoreData {
  import opened Strings
  import opened Store

  /** The three groups of the destination file. */
  datatype Merged = Merged(image: map<string, Dataset>, depth: map<string, Dataset>, seg: map<string, Dataset>)

  /** `imname.endswith('.jpg')`. */
  predicate IsJpg(name: string) {
    EndsWith(name, ".jpg")
  }

  /** `seg_db['mask']`; a file without that group raises KeyError for every name, like an empty one. */
  function MaskGroup(segDb: map<string, map<string, Dataset>>): (mask: map<string, Dataset>)
    ensures "mask" in segDb ==> mask == segDb["mask"]
    ensures "mask" !in segDb ==> mask == map[]
  {
    if "mask" in segDb then segDb["mask"] else map[]
  }

  /**
   * What lines 108-110 leave in `seg` for a mask entry: the payload, then `area`,
   * then `label`; a missing attribute raises KeyError after the earlier writes.
   */
  function SegCopy(src: Dataset): Dataset {
    if "area" !in src.attrs then Fresh(src.data)
    else if "label" !in src.attrs then Dataset(src.data, map["area" := src.attrs["area"]])
    else Dataset(src.data, map["area" := src.attrs["area"], "label" := src.attrs["label"]])
  }

  /** A seg entry carries the mask's `area` and `label`, whenever the mask has both. */
  lemma SegCopyAttrs(src: Dataset)
    requires "area" in src.attrs && "label" in src.attrs
    ensures SegCopy(src).data == src.data
    ensures SegCopy(src).attrs.Keys == {"area", "label"}
    ensures SegCopy(src).attrs["area"] == src.attrs["area"]
    ensures SegCopy(src).attrs["label"] == src.attrs["label"]
  {
  }

  /** One iteration of the loop at lines 90-113, on the destination's groups. */
  function MergeStep(m: Merged, name: string, load: string -> Blob,
                     depthDb: map<string, Dataset>, mask: map<string, Dataset>): Merged
  {
    if !IsJpg(name) then m
    else
      var m1 := m.(image := m.image[name := Fresh(load(name))]);
      if name !in depthDb then m1
      else
        var m2 := m1.(depth := m1.depth[name := Fresh(depthDb[name].data)]);
        if name !in mask then m2
        else m2.(seg := m2.seg[name := SegCopy(mask[name])])
  }

  /** The destination after the loop has run over `names`, starting from the empty file. */
  function MergeAll(names: seq<string>, load: string -> Blob,
                    depthDb: map<string, Dataset>, mask: map<string, Dataset>): Merged
    decreases |names|
  {
    if |names| == 0 then Merged(map[], map[], map[])
    else MergeStep(MergeAll(names[..|names| - 1], load, depthDb, mask), names[|names| - 1], load, depthDb, mask)
  }

  /** No name occurs twice; a directory listing never repeats a name. */
  predicate Distinct(names: seq<string>) {
    forall i, j :: 0 <= i < j < |names| ==> names[i] != names[j]
  }

  /**
   * Lines 77-119. The images are decoded by `load` (PIL); the file opened with 'w'
   * starts with three empty groups, and the source files are only read.
   */
  method AddMoreDataIntoDset(listing: seq<string>, load: string -> Blob,
                             depthDb: map<string, Dataset>, segDb: map<string, map<string, Dataset>>)
    returns (r: Merged)
    requires Distinct(listing)
    ensures r == MergeAll(listing, load, depthDb, MaskGroup(segDb))
  {
    var mask := MaskGroup(segDb);
    var image := new Group();
    var depth := new Group();
    var seg := new Group();
    var i := 0;
    while i < |listing|
      invariant 0 <= i <= |listing|
      invariant image != depth && image != seg && depth != seg
      invariant Merged(image.entries, depth.entries, seg.entries) == MergeAll(listing[..i], load, depthDb, mask)
    {
      assert listing[..i + 1][..i] == listing[..i];
      MergeKeysWithin(listing[..i], load, depthDb, mask, listing[i]);
      MergeName(listing[i], load, depthDb, segDb, image, depth, seg);
      i := i + 1;
    }
    assert listing[..i] == listing;
    r := Merged(image.entries, depth.entries, seg.entries);
  }

  /** The body of the loop (lines 91-113) for one directory entry not seen before. */
  method MergeName(name: string, load: string -> Blob,
                   depthDb: map<string, Dataset>, segDb: map<string, map<string, Dataset>>,
                   image: Group, depth: Group, seg: Group)
    requires image != depth && image != seg && depth != seg
    requires name !in image.entries && name !in depth.entries && name !in seg.entries
    modifies image, depth, seg
    ensures Merged(image.entries, depth.entries, seg.entries)
            == MergeStep(old(Merged(image.entries, depth.entries, seg.entries)), name, load, depthDb, MaskGroup(segDb))
  {
    if IsJpg(name) {
      var ok := image.CreateDataset(name, load(name));
      assert ok;
      if name in depthDb {
        ok := depth.CreateDataset(name, depthDb[name].data);
        assert ok;
        if "mask" in segDb && name in segDb["mask"] {
          CopyMask(name, segDb["mask"][name], seg);
        }
      }
    }
  }

  /** Lines 108-110: the mask payload, then its `area` and `label`, until one is missing. */
  method CopyMask(name: string, src: Dataset, seg: Group)
    requires name !in seg.entries
    modifies seg
    ensures seg.entries == old(seg.entries)[name := SegCopy(src)]
  {
    var ok := seg.CreateDataset(name, src.data);
    assert ok;
    if "area" in src.attrs {
      seg.SetAttr(name, "area", src.attrs["area"]);
      if "label" in src.attrs {
        seg.SetAttr(name, "label", src.attrs["label"]);
      }
    }
  }

  /** Helper for the loop: a name not yet listed has no entry in any group. */
  lemma MergeKeysWithin(names: seq<string>, load: string -> Blob,
                        depthDb: map<string, Dataset>, mask: map<string, Dataset>, n: string)
    requires n !in names
    ensures n !in MergeAll(names, load, depthDb, mask).image
    ensures n !in MergeAll(names, load, depthDb, mask).depth
    ensures n !in MergeAll(names, load, depthDb, mask).seg
  {
    MergeImage(names, load, depthDb, mask, n);
    MergeDepth(names, load, depthDb, mask, n);
    MergeSeg(names, load, depthDb, mask, n);
  }

  /** Every listed `.jpg` name gets its image, whatever depth and seg hold (line 98). */
  lemma {:induction false} MergeImage(names: seq<string>, load: string -> Blob,
                                      depthDb: map<string, Dataset>, mask: map<string, Dataset>, n: string)
    ensures n in MergeAll(names, load, depthDb, mask).image <==> n in names && IsJpg(n)
    ensures n in MergeAll(names, load, depthDb, mask).image ==>
              MergeAll(names, load, depthDb, mask).image[n] == Fresh(load(n))
    decreases |names|
  {
    if |names| > 0 {
      var init := names[..|names| - 1];
      MergeImage(init, load, depthDb, mask, n);
      assert names == init + [names[|names| - 1]];
    }
  }

  /** A depth entry exists exactly for the listed `.jpg` names the depth file has, with its payload. */
  lemma {:induction false} MergeDepth(names: seq<string>, load: string -> Blob,
                                      depthDb: map<string, Dataset>, mask: map<string, Dataset>, n: string)
    ensures n in MergeAll(names, load, depthDb, mask).depth <==> n in names && IsJpg(n) && n in depthDb
    ensures n in MergeAll(names, load, depthDb, mask).depth ==>
              MergeAll(names, load, depthDb, mask).depth[n] == Fresh(depthDb[n].data)
    decreases |names|
  {
    if |names| > 0 {
      var init := names[..|names| - 1];
      MergeDepth(init, load, depthDb, mask, n);
      assert names == init + [names[|names| - 1]];
    }
  }

  /**
   * A seg entry exists exactly for the listed `.jpg` names present in BOTH the depth
   * file and the mask group; it is the mask entry as SegCopy leaves it.
   */
  lemma {:induction false} MergeSeg(names: seq<string>, load: string -> Blob,
                                    depthDb: map<string, Dataset>, mask: map<string, Dataset>, n: string)
    ensures n in MergeAll(names, load, depthDb, mask).seg <==>
              n in names && IsJpg(n) && n in depthDb && n in mask
    ensures n in MergeAll(names, load, depthDb, mask).seg ==>
              MergeAll(names, load, depthDb, mask).seg[n] == SegCopy(mask[n])
    decreases |names|
  {
    if |names| > 0 {
      var init := names[..|names| - 1];
      MergeSeg(init, load, depthDb, mask, n);
      assert names == init + [names[|names| - 1]];
    }
  }

  /** The groups nest: keys(seg) within keys(depth) within keys(image). */
  lemma MergeInclusion(names: seq<string>, load: string -> Blob,
                       depthDb: map<string, Dataset>, mask: map<string, Dataset>)
    ensures MergeAll(names, load, depthDb, mask).seg.Keys <= MergeAll(names, load, depthDb, mask).depth.Keys
    ensures MergeAll(names, load, depthDb, mask).depth.Keys <= MergeAll(names, load, depthDb, mask).image.Keys
  {
    var m := MergeAll(names, load, depthDb, mask);
    forall n | n in m.seg ensures n in m.depth {
      MergeSeg(names, load, depthDb, mask, n);
      MergeDepth(names, load, depthDb, mask, n);
    }
    forall n | n in m.depth ensures n in m.image {
      MergeDepth(names, load, depthDb, mask, n);
      MergeImage(names, load, depthDb, mask, n);
    }
  }

  /** A name in the depth file but not in the mask group keeps its depth entry and gets no seg entry. */
  lemma DepthWithoutMask(names: seq<string>, load: string -> Blob,
                         depthDb: map<string, Dataset>, mask: map<string, Dataset>, n: string)
    requires n in names && IsJpg(n) && n in depthDb && n !in mask
    ensures n in MergeAll(names, load, depthDb, mask).image
    ensures n in MergeAll(names, load, depthDb, mask).depth
    ensures n !in MergeAll(names, load, depthDb, mask).seg
  {
    MergeImage(names, load, depthDb, mask, n);
    MergeDepth(names, load, depthDb, mask, n);
    MergeSeg(names, load, depthDb, mask, n);
  }

  /** The listed names that end with `.jpg`, in listing order. */
  function JpgOnly(names: seq<string>): (r: seq<string>)
    ensures forall k :: 0 <= k < |r| ==> IsJpg(r[k])
    decreases |names|
  {
    if |names| == 0 then []
    else if IsJpg(names[|names| - 1]) then JpgOnly(names[..|names| - 1]) + [names[|names| - 1]]
    else JpgOnly(names[..|names| - 1])
  }

  /** Other directory entries are ignored: merging the listing equals merging its `.jpg` names only. */
  lemma {:induction false} MergeIgnoresNonJpg(names: seq<string>, load: string -> Blob,
                                              depthDb: map<string, Dataset>, mask: map<string, Dataset>)
    ensures MergeAll(names, load, depthDb, mask) == MergeAll(JpgOnly(names), load, depthDb, mask)
    decreases |names|
  {
    if |names| > 0 {
      var init := names[..|names| - 1];
      var last := names[|names| - 1];
      MergeIgnoresNonJpg(init, load, depthDb, mask);
      if IsJpg(last) {
        var j := JpgOnly(init) + [last];
        assert j[..|j| - 1] == JpgOnly(init);
      }
    }
  }

  /**
   * Scenario: `X.jpg` is listed and has a mask entry but no depth entry; it appears
   * in `image` only.
   */
  lemma MaskWithoutDepth(load: string -> Blob, depthDb: map<string, Dataset>, segDb: map<string, map<string, Dataset>>)
    requires "X.jpg" !in depthDb
    requires "mask" in segDb && "X.jpg" in segDb["mask"]
    ensures "X.jpg" in MergeAll(["X.jpg"], load, depthDb, MaskGroup(segDb)).image
    ensures "X.jpg" !in MergeAll(["X.jpg"], load, depthDb, MaskGroup(segDb)).depth
    ensures "X.jpg" !in MergeAll(["X.jpg"], load, depthDb, MaskGroup(segDb)).seg
  {
    MergeImage(["X.jpg"], load, depthDb, MaskGroup(segDb), "X.jpg");
    MergeDepth(["X.jpg"], load, depthDb, MaskGroup(segDb), "X.jpg");
    MergeSeg(["X.jpg"], load, depthDb, MaskGroup(segDb), "X.jpg");
  }
}
