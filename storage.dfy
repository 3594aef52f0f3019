/** The on-board EEPROM as both firmware variants use it: a few single-byte
    header cells (status, base channel, ...) followed by a table of
    fixed-size button records, one per button.

    The byte layout of a record (what `EEPROM.put` makes of a C struct) is
    compiler-defined, so a record is kept whole here; `RecordOffset` and the
    lemmas beside it show that the header cells and the records never
    overlap, which is what makes "header cells + record table" a faithful
    picture of the byte-addressed memory. */
module Storage {

  /** One store the firmware issues: `storeByte(addr, data)` or
      `storeButtonConfig(index, record)`. */
  datatype Write<R> = StoreByte(addr: nat, data: bv8) | StoreRecord(index: nat, record: R)

  /** The contents of the EEPROM. */
  datatype Image<R> = Image(header: seq<bv8>, records: seq<R>)

  /** The contents after one store; a store outside the image changes nothing. */
  function Apply<R>(img: Image<R>, w: Write<R>): (r: Image<R>)
    ensures |r.header| == |img.header| && |r.records| == |img.records|
    ensures w.StoreByte? ==> r.records == img.records
    ensures w.StoreRecord? ==> r.header == img.header
  {
    match w
    case StoreByte(a, d) =>
      if a < |img.header| then img.(header := img.header[a := d]) else img
    case StoreRecord(i, c) =>
      if i < |img.records| then img.(records := img.records[i := c]) else img
  }

  /** The contents after a sequence of stores, issued left to right. */
  function ApplyAll<R>(img: Image<R>, ws: seq<Write<R>>): (r: Image<R>)
    ensures |r.header| == |img.header| && |r.records| == |img.records|
    decreases |ws|
  {
    if ws == [] then img else Apply(ApplyAll(img, ws[..|ws| - 1]), ws[|ws| - 1])
  }

  /** Issuing two batches of stores one after the other is issuing their concatenation. */
  lemma {:induction false} ApplyAllAppend<R>(img: Image<R>, ws1: seq<Write<R>>, ws2: seq<Write<R>>)
    ensures ApplyAll(img, ws1 + ws2) == ApplyAll(ApplyAll(img, ws1), ws2)
    decreases |ws2|
  {
    if ws2 == [] {
      assert ws1 + ws2 == ws1;
    } else {
      var last := |ws2| - 1;
      assert (ws1 + ws2)[..|ws1 + ws2| - 1] == ws1 + ws2[..last];
      ApplyAllAppend(img, ws1, ws2[..last]);
    }
  }

  /** A fetch of record `i` after storing `c` there returns `c`; every other
      record and every header cell keeps its value. */
  lemma FetchAfterStoreRecord<R>(img: Image<R>, i: nat, c: R)
    requires i < |img.records|
    ensures Apply(img, StoreRecord(i, c)).records[i] == c
    ensures forall j :: 0 <= j < |img.records| && j != i ==>
              Apply(img, StoreRecord(i, c)).records[j] == img.records[j]
    ensures Apply(img, StoreRecord(i, c)).header == img.header
  {
  }

  /** Start address of record `i` in a table that starts at `base` and whose
      records take `size` bytes each (`ADDR_CONFIG + button * sizeof(...)`). */
  function RecordOffset(base: nat, size: nat, i: nat): nat
  {
    base + i * size
  }

  /** Every byte of every record lies at or above the table base, so no
      record byte is any header cell `a` below it. */
  lemma RecordAboveBase(base: nat, size: nat, i: nat, k: nat, a: nat)
    requires k < size && a < base
    ensures base <= RecordOffset(base, size, i) + k
    ensures RecordOffset(base, size, i) + k != a
  {
  }

  /** The byte ranges of two distinct records do not overlap. */
  lemma RecordsDisjoint(base: nat, size: nat, i: nat, j: nat, k: nat, l: nat)
    requires i != j && k < size && l < size
    ensures RecordOffset(base, size, i) + k != RecordOffset(base, size, j) + l
  {
    if i < j {
      SpacedRecords(size, i, j);
    } else {
      SpacedRecords(size, j, i);
    }
  }

  /** Records `i < j` start at least one record length apart. */
  lemma {:induction false} SpacedRecords(size: nat, i: nat, j: nat)
    requires i < j
    ensures j * size >= i * size + size
    decreases j - i
  {
    assert j * size == (j - 1) * size + size;
    if i < j - 1 {
      SpacedRecords(size, i, j - 1);
    }
  }

  /** The EEPROM device. `writes` records, in order, every store the firmware
      has issued since power-up; it is part of the model only, so that "one
      store" and "no store" can be stated. */
  class Eeprom<R> {
    var image: Image<R>
    ghost var writes: seq<Write<R>>

    constructor (contents: Image<R>)
      ensures image == contents && writes == []
    {
      image := contents;
      writes := [];
    }

    /** `storeByte`: `EEPROM.put` of one byte. */
    method StoreByte(addr: nat, data: bv8)
      requires addr < |image.header|
      modifies this
      ensures image == Apply(old(image), Write.StoreByte(addr, data))
      ensures image.header == old(image.header)[addr := data] && image.records == old(image.records)
      ensures writes == old(writes) + [Write.StoreByte(addr, data)]
    {
      image := image.(header := image.header[addr := data]);
      writes := writes + [Write.StoreByte(addr, data)];
    }

    /** `fetchByte`: `EEPROM.get` of one byte. */
    method FetchByte(addr: nat) returns (data: bv8)
      requires addr < |image.header|
      ensures data == image.header[addr]
    {
      data := image.header[addr];
    }

    /** `storeButtonConfig`: `EEPROM.put` of one whole record. */
    method StoreRecord(index: nat, record: R)
      requires index < |image.records|
      modifies this
      ensures image == Apply(old(image), Write.StoreRecord(index, record))
      ensures image.records == old(image.records)[index := record] && image.header == old(image.header)
      ensures writes == old(writes) + [Write.StoreRecord(index, record)]
    {
      image := image.(records := image.records[index := record]);
      writes := writes + [Write.StoreRecord(index, record)];
    }

    /** `fetchButtonConfig`: `EEPROM.get` of one whole record. */
    method FetchRecord(index: nat) returns (record: R)
      requires index < |image.records|
      ensures record == image.records[index]
    {
      record := image.records[index];
    }
  }

  /** `storeButtonConfig(i, records[i])` for i = 0 .. n-1. */
  function RecordWrites<R>(records: seq<R>, n: nat): (ws: seq<Write<R>>)
    requires n <= |records|
    ensures |ws| == n
  {
    if n == 0 then [] else RecordWrites(records, n - 1) + [StoreRecord(n - 1, records[n - 1])]
  }

  /** Storing the first `n` records overwrites exactly those records. */
  lemma {:induction false} RecordWritesImage<R>(img: Image<R>, records: seq<R>, n: nat)
    requires n <= |records| == |img.records|
    ensures ApplyAll(img, RecordWrites(records, n)).header == img.header
    ensures ApplyAll(img, RecordWrites(records, n)).records == records[..n] + img.records[n..]
  {
    if n > 0 {
      var ws := RecordWrites(records, n);
      assert ws[..|ws| - 1] == RecordWrites(records, n - 1);
      RecordWritesImage(img, records, n - 1);
      assert records[..n] + img.records[n..] == (records[..n - 1] + img.records[n - 1..])[n - 1 := records[n - 1]];
    }
  }

  /** A batch of one store is that store. */
  lemma SingleStore<R>(img: Image<R>, w: Write<R>)
    ensures ApplyAll(img, [w]) == Apply(img, w)
  {
    assert [w][..0] == [];
  }

  /** A batch of two stores is the two stores in order. */
  lemma TwoStores<R>(img: Image<R>, w0: Write<R>, w1: Write<R>)
    ensures ApplyAll(img, [w0, w1]) == Apply(Apply(img, w0), w1)
  {
    assert [w0, w1][..1] == [w0];
    SingleStore(img, w0);
  }

  /** A batch of three stores is the three stores in order. */
  lemma ThreeStores<R>(img: Image<R>, w0: Write<R>, w1: Write<R>, w2: Write<R>)
    ensures ApplyAll(img, [w0, w1, w2]) == Apply(Apply(Apply(img, w0), w1), w2)
  {
    TwoStores(img, w0, w1);
    assert [w0, w1, w2][..2] == [w0, w1];
  }
}
