/**
 * The keyed store both scripts use (an HDF5 file through h5py), reduced to what
 * they observe: a group maps dataset names to an array payload and named
 * attributes. Array payloads are kept opaque; their numeric contents are never
 * interpreted by the code modelled here.
 */
module Store {
  import opened Utf8

  /** An array payload (image, depth map, mask, bounding boxes), flattened. */
  type Blob = seq<int>

  /** An attribute value: a numeric array or a list of byte strings. */
  datatype AttrValue = Numbers(values: Blob) | ByteStrings(items: seq<seq<byte>>)

  /** One dataset: its payload and its attributes. */
  datatype Dataset = Dataset(data: Blob, attrs: map<string, AttrValue>)

  /** A dataset freshly made by `create_dataset(name, data=...)`: no attributes yet. */
  function Fresh(data: Blob): (d: Dataset)
    ensures d.data == data && d.attrs == map[]
  {
    Dataset(data, map[])
  }

  /**
   * A group of an open file (`db['image']`, `out_db['data']`, ...), updated in place.
   * `create_dataset` refuses a name that already exists (h5py raises ValueError).
   */
  class Group {
    var entries: map<string, Dataset>

    /** `create_group(...)` on a file opened with 'w': the group starts empty. */
    constructor ()
      ensures entries == map[]
    {
      entries := map[];
    }

    /** `group.create_dataset(name, data=data)`; ok is false exactly when the name is taken. */
    method CreateDataset(name: string, data: Blob) returns (ok: bool)
      modifies this
      ensures ok == (name !in old(entries))
      ensures entries == if ok then old(entries)[name := Fresh(data)] else old(entries)
    {
      ok := name !in entries;
      if ok {
        entries := entries[name := Fresh(data)];
      }
    }

    /** `group[name].attrs[key] = v`: sets or replaces one attribute of an existing dataset. */
    method SetAttr(name: string, key: string, v: AttrValue)
      requires name in entries
      modifies this
      ensures entries == old(entries)[name := old(entries)[name].(attrs := old(entries)[name].attrs[key := v])]
    {
      var d := entries[name];
      entries := entries[name := d.(attrs := d.attrs[key := v])];
    }
  }
}
