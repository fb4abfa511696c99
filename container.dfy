/**
 * The hierarchical output container (an HDF5 file opened for writing): named
 * top-level groups, created in some order, each holding named datasets.
 * `add_group` (scripts/mocap.py:21-24) creates one group and fills it with one
 * dataset per element of a list, named by the element's index.
 */
module Container {
  import opened Decimal

  /** One named dataset inside a group. */
  datatype Dataset<D> = Dataset(name: string, data: D)

  /** The value of a container: its groups and the order in which they were created. */
  datatype Layout<D> = Layout(groups: map<string, seq<Dataset<D>>>, order: seq<string>)
  {
    /** Every group was created exactly once, and every created group is present. */
    ghost predicate WellFormed() {
      (forall g :: g in groups <==> g in order) &&
      (forall i, j :: 0 <= i < j < |order| ==> order[i] != order[j])
    }
  }

  /** A freshly created file: no groups. */
  function EmptyLayout<D>(): Layout<D> {
    Layout(map[], [])
  }

  /**
   * `enumerate(seqs, start)` turned into datasets: element `i` becomes the
   * dataset named `str(start + i)`.
   */
  function Enumerate<D>(seqs: seq<D>, start: nat): (r: seq<Dataset<D>>)
    ensures |r| == |seqs|
    ensures forall i :: 0 <= i < |r| ==> r[i] == Dataset(NatToString(start + i), seqs[i])
    decreases |seqs|
  {
    if seqs == [] then [] else [Dataset(NatToString(start), seqs[0])] + Enumerate(seqs[1..], start + 1)
  }

  /** Enumerating one more element appends one more dataset. */
  lemma EnumerateSnoc<D>(seqs: seq<D>, x: D, start: nat)
    ensures Enumerate(seqs + [x], start) == Enumerate(seqs, start) + [Dataset(NatToString(start + |seqs|), x)]
  {
    var l, r := Enumerate(seqs + [x], start), Enumerate(seqs, start) + [Dataset(NatToString(start + |seqs|), x)];
    assert |l| == |r|;
    forall i | 0 <= i < |l| ensures l[i] == r[i] {
      if i < |seqs| {
        assert (seqs + [x])[i] == seqs[i];
      }
    }
  }

  /** The data of a group's datasets, in order. */
  function Values<D>(ds: seq<Dataset<D>>): (r: seq<D>)
    ensures |r| == |ds|
    ensures forall i :: 0 <= i < |r| ==> r[i] == ds[i].data
  {
    if ds == [] then [] else [ds[0].data] + Values(ds[1..])
  }

  /** `add_group` loses nothing and reorders nothing: the datasets hold the list back. */
  lemma EnumerateValues<D>(seqs: seq<D>)
    ensures Values(Enumerate(seqs, 0)) == seqs
  {
  }

  /** The dataset names `"0"`, `"1"`, ... are pairwise distinct, so no creation clashes. */
  lemma EnumerateNamesDistinct<D>(seqs: seq<D>, i: nat, j: nat)
    requires i < j < |seqs|
    ensures Enumerate(seqs, 0)[i].name != Enumerate(seqs, 0)[j].name
  {
    NatToStringInjective(i, j);
  }

  /** The container after a successful `add_group(fp, handle, seqs)`. */
  function WithGroup<D>(l: Layout<D>, handle: string, seqs: seq<D>): (r: Layout<D>)
    ensures handle in r.groups && r.groups[handle] == Enumerate(seqs, 0)
    ensures r.groups.Keys == l.groups.Keys + {handle}
    ensures forall g :: g in l.groups && g != handle ==> r.groups[g] == l.groups[g]
    ensures r.order == l.order + [handle]
  {
    Layout(l.groups[handle := Enumerate(seqs, 0)], l.order + [handle])
  }

  /** Adding a group that does not exist yet keeps the container well formed. */
  lemma WithGroupWellFormed<D>(l: Layout<D>, handle: string, seqs: seq<D>)
    requires l.WellFormed() && handle !in l.groups
    ensures WithGroup(l, handle, seqs).WellFormed()
  {
    var r := WithGroup(l, handle, seqs);
    forall i, j | 0 <= i < j < |r.order| ensures r.order[i] != r.order[j] {
      if j == |l.order| {
        assert r.order[i] == l.order[i];
        assert l.order[i] in l.groups;
      }
    }
  }

  /** An HDF5 file opened for writing. */
  class File<D> {
    var groups: map<string, seq<Dataset<D>>>
    var order: seq<string>

    function Snapshot(): Layout<D>
      reads this
    {
      Layout(groups, order)
    }

    ghost predicate Valid()
      reads this
    {
      Snapshot().WellFormed()
    }

    /** Mode `'w'`: the file starts out empty. */
    constructor ()
      ensures Valid() && Snapshot() == EmptyLayout()
    {
      groups := map[];
      order := [];
    }

    /**
     * `add_group(fp, handle, seqs)`: `create_group` fails when the name is taken
     * (`ok` is false, nothing changes); otherwise the group is created empty and
     * one dataset per element is appended, in list order.
     */
    method AddGroup(handle: string, seqs: seq<D>) returns (ok: bool)
      requires Valid()
      modifies this
      ensures Valid()
      ensures ok == (handle !in old(groups))
      ensures Snapshot() == if ok then WithGroup(old(Snapshot()), handle, seqs) else old(Snapshot())
    {
      if handle in groups {
        return false;
      }
      ghost var before := Snapshot();
      ok := true;
      groups := groups[handle := []];
      order := order + [handle];
      for i := 0 to |seqs|
        invariant groups == before.groups[handle := Enumerate(seqs[..i], 0)]
        invariant order == before.order + [handle]
      {
        assert seqs[..i + 1] == seqs[..i] + [seqs[i]];
        EnumerateSnoc(seqs[..i], seqs[i], 0);
        groups := groups[handle := groups[handle] + [Dataset(NatToString(i), seqs[i])]];
      }
      assert seqs[..|seqs|] == seqs;
      WithGroupWellFormed(before, handle, seqs);
    }
  }
}
