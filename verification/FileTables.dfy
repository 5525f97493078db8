/**
 The tables of a flattened bin, entry by entry.
 */
module FileTables {
  import opened Words
  import opened BinImages
  import opened Flattening
  import opened FlattenMeaning

  ghost predicate IsFile(images: seq<Image>, i: nat)
    requires i < |images|
  {
    !IsSection(images[i].name)
  }

  ghost predicate NoSections(images: seq<Image>) {
    forall i :: 0 <= i < |images| ==> IsFile(images, i)
  }

  /** The first `k` tables, each moved by its base, one after another. */
  function Joined(tables: seq<seq<Entry>>, bases: seq<nat>, k: nat): seq<Entry>
    requires k <= |tables| == |bases|
  {
    if k == 0 then [] else Joined(tables, bases, k - 1) + Rebased(tables[k - 1], bases[k - 1])
  }

  /** The entries of one bin's table in the order the linker takes them. */
  function Taken(img: Image, t: Table): seq<Entry> {
    if IsSection(img.name) then [] else SortByAddress(TableOf(img, t))
  }

  lemma {:induction false} TakenMembers(img: Image, t: Table)
    requires !IsSection(img.name)
    ensures forall e :: e in Taken(img, t) <==> e in TableOf(img, t)
    ensures Distinct(TableOf(img, t)) ==> Distinct(Taken(img, t))
    ensures TableOf(img, t) == [] ==> Taken(img, t) == []
  {
    SortKeepsMembers(TableOf(img, t));
    if Distinct(TableOf(img, t)) { SortKeepsDistinct(TableOf(img, t)); }
  }

  lemma {:induction false} FileTableGrows(images: seq<Image>, k: nat, t: Table)
    requires k < |images|
    ensures FileTable(images, k + 1, t) == FileTable(images, k, t) + Rebased(Taken(images[k], t), FileSize(images, k))
  {
  }

  lemma {:induction false} JoinedGrows(tables: seq<seq<Entry>>, bases: seq<nat>, k: nat)
    requires k < |tables| == |bases|
    ensures Joined(tables, bases, k + 1) == Joined(tables, bases, k) + Rebased(tables[k], bases[k])
  {
  }

  lemma {:induction false} FileTableJoined(images: seq<Image>, k: nat, t: Table, tables: seq<seq<Entry>>,
          bases: seq<nat>)
    requires k <= |images| == |tables| == |bases|
    requires forall i {:trigger tables[i]} :: 0 <= i < |images| ==>
             tables[i] == Taken(images[i], t) && bases[i] == FileSize(images, i)
    ensures FileTable(images, k, t) == Joined(tables, bases, k)
  {
    for i := 0 to k
      invariant FileTable(images, i, t) == Joined(tables, bases, i)
    {
      FileTableGrows(images, i, t);
      JoinedGrows(tables, bases, i);
    }
  }

  /** The tables of the images, as the flattened table joins them. */
  ghost predicate TablesOf(images: seq<Image>, t: Table, tables: seq<seq<Entry>>, bases: seq<nat>) {
    && |images| == |tables| == |bases|
    && forall i {:trigger tables[i]} :: 0 <= i < |images| ==>
                     && bases[i] == FileSize(images, i)
                     && (forall e :: e in tables[i] <==> e in TableOf(images[i], t))
                     && (Distinct(TableOf(images[i], t)) ==> Distinct(tables[i]))
                     && (TableOf(images[i], t) == [] ==> tables[i] == [])
  }

  lemma {:induction false} FlatTable(images: seq<Image>, t: Table) returns (tables: seq<seq<Entry>>, bases: seq<nat>)
    requires NoSections(images)
    ensures TablesOf(images, t, tables, bases) && FileTable(images, |images|, t) == Joined(tables, bases, |images|)
  {
    tables := seq(|images|, i requires 0 <= i < |images| => Taken(images[i], t));
    bases := seq(|images|, i requires 0 <= i < |images| => FileSize(images, i));
    FileTableJoined(images, |images|, t, tables, bases);
    forall i | 0 <= i < |images|
      ensures (forall e :: e in tables[i] <==> e in TableOf(images[i], t)) &&
              (Distinct(TableOf(images[i], t)) ==> Distinct(tables[i])) &&
                  (TableOf(images[i], t) == [] ==> tables[i] == [])
    {
      assert IsFile(images, i);
      TakenMembers(images[i], t);
    }
  }

  lemma {:induction false} RebasedFrom(es: seq<Entry>, base: nat, f: Entry) returns (e: Entry)
    requires f in Rebased(es, base)
    ensures e in es && f == e.(address := Wrap(base + e.address))
  {
    var m :| 0 <= m < |es| && Rebased(es, base)[m] == f;
    e := es[m];
  }

  lemma {:induction false} RebasedAt(es: seq<Entry>, base: nat, e: Entry)
    requires e in es
    ensures e.(address := Wrap(base + e.address)) in Rebased(es, base)
  {
    var m :| 0 <= m < |es| && es[m] == e;
    assert Rebased(es, base)[m] == e.(address := Wrap(base + e.address));
  }

  /** Every joined entry comes from one table. */
  lemma {:induction false} JoinedFrom(tables: seq<seq<Entry>>, bases: seq<nat>, k: nat, f: Entry)
    returns (j: nat, e: Entry)
    requires k <= |tables| == |bases| && f in Joined(tables, bases, k)
    ensures j < k && e in tables[j] && f == e.(address := Wrap(bases[j] + e.address))
  {
    if f in Joined(tables, bases, k - 1) {
      j, e := JoinedFrom(tables, bases, k - 1, f);
    } else {
      j := k - 1;
      e := RebasedFrom(tables[j], bases[j], f);
    }
  }

  lemma {:induction false} JoinedHas(tables: seq<seq<Entry>>, bases: seq<nat>, k: nat, j: nat, f: Entry)
    requires j < k <= |tables| == |bases| && f in Rebased(tables[j], bases[j])
    ensures f in Joined(tables, bases, k)
  {
    JoinedGrows(tables, bases, k - 1);
    if j < k - 1 { JoinedHas(tables, bases, k - 1, j, f); }
  }

  lemma {:induction false} JoinedAt(tables: seq<seq<Entry>>, bases: seq<nat>, k: nat, j: nat, e: Entry)
    requires j < k <= |tables| == |bases| && e in tables[j]
    ensures e.(address := Wrap(bases[j] + e.address)) in Joined(tables, bases, k)
  {
    RebasedAt(tables[j], bases[j], e);
    JoinedHas(tables, bases, k, j, e.(address := Wrap(bases[j] + e.address)));
  }

  lemma {:induction false} JoinedEmpty(tables: seq<seq<Entry>>, bases: seq<nat>, k: nat)
    requires k <= |tables| == |bases| && forall i :: 0 <= i < k ==> tables[i] == []
    ensures Joined(tables, bases, k) == []
  {
    if k > 0 { JoinedEmpty(tables, bases, k - 1); }
  }

  lemma {:induction false} RebasedDistinct(front: seq<Entry>, es: seq<Entry>, base: nat, limit: nat)
    requires Distinct(front) && Distinct(es) && base <= limit <= WORD_COUNT && Below(front, base)
    requires forall e :: e in es ==> base + e.address < limit
    ensures Distinct(front + Rebased(es, base)) && Below(front + Rebased(es, base), limit)
  {
    var r := front + Rebased(es, base);
    forall i | 0 <= i < |es| ensures Rebased(es, base)[i].address == base + es[i].address < limit {
      assert es[i] in es;
    }
    forall i, j | 0 <= i < j < |r| ensures r[i].address != r[j].address {
    }
  }

  /** The end of the stretch of table `k`. */
  function Edge(bases: seq<nat>, limit: nat, k: nat): nat {
    if k < |bases| then bases[k] else limit
  }

  /** The entries of table `i` lie in their own stretch, at different addresses. */
  ghost predicate InStretch(es: seq<Entry>, base: nat, edge: nat, limit: nat) {
    Distinct(es) && base <= edge <= limit && forall e :: e in es ==> base + e.address < edge
  }

  ghost predicate Separated(tables: seq<seq<Entry>>, bases: seq<nat>, limit: nat) {
    && |tables| == |bases| && limit <= WORD_COUNT
    && forall i :: 0 <= i < |tables| ==> InStretch(tables[i], bases[i], Edge(bases, limit, i + 1), limit)
  }

  /** Tables whose entries lie in their own stretches have no two entries at one address. */
  lemma {:induction false} JoinedDistinct(tables: seq<seq<Entry>>, bases: seq<nat>, k: nat, limit: nat)
    requires k <= |tables| && Separated(tables, bases, limit)
    ensures Distinct(Joined(tables, bases, k)) && Below(Joined(tables, bases, k), Edge(bases, limit, k))
  {
    if k > 0 {
      JoinedDistinct(tables, bases, k - 1, limit);
      JoinedGrows(tables, bases, k - 1);
      assert InStretch(tables[k - 1], bases[k - 1], Edge(bases, limit, k), limit);
      RebasedDistinct(Joined(tables, bases, k - 1), tables[k - 1], bases[k - 1], Edge(bases, limit, k));
    }
  }

  lemma {:induction false} TableFrom(images: seq<Image>, t: Table, tables: seq<seq<Entry>>, bases: seq<nat>, f: Entry)
    returns (j: nat, e: Entry, base: nat)
    requires TablesOf(images, t, tables, bases) && f in Joined(tables, bases, |images|)
    ensures j < |images| && e in TableOf(images[j], t) && base == FileSize(images, j)
    ensures f.symbol == e.symbol && f.bin == e.bin && f.address == Wrap(base + e.address)
  {
    j, e := JoinedFrom(tables, bases, |images|, f);
    base := bases[j];
    assert e in tables[j];
  }

  lemma {:induction false} TableHas(images: seq<Image>, t: Table, tables: seq<seq<Entry>>, bases: seq<nat>, j: nat,
          e: Entry)
    returns (f: Entry, base: nat)
    requires TablesOf(images, t, tables, bases) && j < |images| && e in TableOf(images[j], t)
    ensures f in Joined(tables, bases, |images|) && base == FileSize(images, j)
    ensures f.symbol == e.symbol && f.bin == e.bin && f.address == Wrap(base + e.address)
  {
    assert e in tables[j];
    base := bases[j];
    JoinedAt(tables, bases, |images|, j, e);
    f := e.(address := Wrap(base + e.address));
  }

  /** Every entry of a flattened table comes from one bin. */
  lemma {:induction false} FlatFrom(images: seq<Image>, t: Table, f: Entry) returns (j: nat, e: Entry, base: nat)
    requires NoSections(images) && f in FileTable(images, |images|, t)
    ensures j < |images| && e in TableOf(images[j], t) && base == FileSize(images, j)
    ensures f.symbol == e.symbol && f.bin == e.bin && f.address == Wrap(base + e.address)
  {
    var tables, bases := FlatTable(images, t);
    j, e, base := TableFrom(images, t, tables, bases, f);
  }

  lemma {:induction false} FlatHas(images: seq<Image>, t: Table, j: nat, e: Entry) returns (f: Entry, base: nat)
    requires NoSections(images) && j < |images| && e in TableOf(images[j], t)
    ensures f in FileTable(images, |images|, t) && base == FileSize(images, j)
    ensures f.symbol == e.symbol && f.bin == e.bin && f.address == Wrap(base + e.address)
  {
    var tables, bases := FlatTable(images, t);
    f, base := TableHas(images, t, tables, bases, j, e);
  }
}
