/** Merging checkpoints into one: `aggregate` (gem5/util/checkpoint_aggregator.py:44-151). Files are
    byte strings and section lists; compression is not modelled. */
module Aggregator {
  import opened Bytes
  import opened Text
  import opened Wrappers

  const PAGE: nat := 4096

  datatype Value = Raw(text: string) | Number(n: int)

  datatype Section = Section(name: string, items: seq<(string, string)>)

  datatype OutSection = OutSection(name: string, items: seq<(string, Value)>)

  /** One checkpoint: the sections that are neither "system" nor "Globals", `system.pagePtr`,
      `Globals.curTick` and the memory image. */
  datatype Checkpoint = Checkpoint(sections: seq<Section>, pages: nat, curTick: nat, image: seq<byte>)

  datatype Error = ValueError | NoSection

  /** What is written: the sections in file order, `pagePtr`, `nextPID`, `range_size`, `curTick` and the image. */
  datatype Merged = Merged(sections: seq<OutSection>, pages: nat, nextPid: nat, rangeSize: nat, curTick: nat, image: seq<byte>)

  // ---------- Memory ----------

  function Min(a: int, b: int): int {
    if a < b then a else b
  }

  /** What the page loop copies of an image: its stated pages, or all of it when it is shorter. */
  function Copied(c: Checkpoint): seq<byte> {
    c.image[..Min(|c.image|, c.pages * PAGE)]
  }

  function Pages(cpts: seq<Checkpoint>): nat {
    if cpts == [] then 0 else Pages(cpts[..|cpts| - 1]) + cpts[|cpts| - 1].pages
  }

  function Images(cpts: seq<Checkpoint>): seq<byte> {
    if cpts == [] then [] else Images(cpts[..|cpts| - 1]) + Copied(cpts[|cpts| - 1])
  }

  /** Lines 107-114: page by page, each read returning what is left of the image if that is less. */
  method CopyPages(image: seq<byte>, pages: nat) returns (out: seq<byte>)
    ensures out == image[..Min(|image|, pages * PAGE)]
  {
    out := [];
    var x, pos := 0, 0;
    while x < pages
      invariant 0 <= x <= pages && pos == Min(|image|, x * PAGE) && out == image[..pos]
    {
      var end := if |image| - pos <= PAGE then |image| else pos + PAGE;
      var bytesRead := image[pos..end];
      out := out + bytesRead;
      pos := end;
      x := x + 1;
    }
  }

  function Padding(n: nat): seq<byte> {
    if n == 0 then [] else Padding(n - 1) + seq(PAGE, i => '0' as int)
  }

  /** Pages of padding needed to reach the requested size. */
  function PadPages(pages: nat, memorySize: int): nat {
    if pages * PAGE >= memorySize then 0 else (memorySize - pages * PAGE + PAGE - 1) / PAGE
  }

  /** Lines 123-131. */
  method Pad(image: seq<byte>, pages: nat, memorySize: int) returns (out: seq<byte>, pagePtr: nat)
    ensures pagePtr == pages + PadPages(pages, memorySize)
    ensures out == image + Padding(PadPages(pages, memorySize))
  {
    out, pagePtr := image, pages;
    var fileSize := pages * PAGE;
    ghost var k := 0;
    while fileSize < memorySize
      invariant 0 <= k <= PadPages(pages, memorySize)
      invariant pagePtr == pages + k && fileSize == pagePtr * PAGE && out == image + Padding(k)
      decreases memorySize - fileSize
    {
      out := out + seq(PAGE, i => '0' as int);
      fileSize := fileSize + PAGE;
      pagePtr := pagePtr + 1;
      k := k + 1;
    }
  }

  // ---------- Sections ----------

  predicate StartsCpu(s: string) {
    |s| >= 3 && s[0] == 'c' && s[1] == 'p' && s[2] == 'u'
  }

  predicate HasCpu(s: string) {
    s != [] && (StartsCpu(s) || HasCpu(s[1..]))
  }

  /** Every "cpu" gets the checkpoint number behind it. */
  function Rename(s: string, number: string): string {
    if s == [] then ""
    else if StartsCpu(s) then "cpu" + number + Rename(s[3..], number)
    else [s[0]] + Rename(s[1..], number)
  }

  function Zeros(n: int): string {
    if n <= 0 then "" else "0" + Zeros(n - 1)
  }

  /** `str(i).zfill(len(str(n - 1)))` */
  function IndexText(i: nat, n: nat): string
    requires n > 0
  {
    Zeros(|Decimal(n - 1)| - |Decimal(i)|) + Decimal(i)
  }

  /** Physical addresses move by the pages of the checkpoints before; everything else is copied. */
  function MoveItem(item: (string, string), offset: int): Result<(string, Value), Error> {
    if item.0 == "paddr" then
      match ParseInt(item.1)
      case None => Err(ValueError)
      case Some(a) => Ok((item.0, Number(a + offset)))
    else Ok((item.0, Raw(item.1)))
  }

  function MoveItems(items: seq<(string, string)>, offset: int): Result<seq<(string, Value)>, Error> {
    if items == [] then Ok([])
    else
      var before :- MoveItems(items[..|items| - 1], offset);
      var last :- MoveItem(items[|items| - 1], offset);
      Ok(before + [last])
  }

  /** A match of `workload.FdMap256$`, where the dot stands for any character. */
  predicate IsFdMap(s: string) {
    |s| >= 9 && EndsWith(s, "FdMap256") && s[|s| - 9] != '\n' && EndsWith(s[..|s| - 9], "workload")
  }

  predicate EndsWith(s: string, t: string) {
    t == [] || (s != [] && s[|s| - 1] == t[|t| - 1] && EndsWith(s[..|s| - 1], t[..|t| - 1]))
  }

  /** Setting an option replaces it where it stands or adds it at the end. */
  function Put(items: seq<(string, Value)>, key: string, v: Value): seq<(string, Value)> {
    if items == [] then [(key, v)]
    else if items[0].0 == key then [(key, v)] + items[1..]
    else [items[0]] + Put(items[1..], key, v)
  }

  function Copy(items: seq<(string, string)>): seq<(string, Value)> {
    if items == [] then [] else Copy(items[..|items| - 1]) + [(items[|items| - 1].0, Raw(items[|items| - 1].1))]
  }

  /** What section `sec` of checkpoint `i` of `n` contributes, with `offset` bytes of memory before it. */
  function MergeSection(sec: Section, i: nat, n: nat, offset: int): Result<seq<OutSection>, Error>
    requires i < n
  {
    if HasCpu(sec.name) then
      var items :- MoveItems(sec.items, offset);
      var named := if IsFdMap(sec.name) then Put(items, "M5_pid", Number(i)) else items;
      Ok([OutSection(Rename(sec.name, IndexText(i, n)), named)])
    else if i == n - 1 then Ok([OutSection(sec.name, Copy(sec.items))])
    else Ok([])
  }

  function MergeSections(secs: seq<Section>, i: nat, n: nat, offset: int): Result<seq<OutSection>, Error>
    requires i < n
  {
    if secs == [] then Ok([])
    else
      var before :- MergeSections(secs[..|secs| - 1], i, n, offset);
      var last :- MergeSection(secs[|secs| - 1], i, n, offset);
      Ok(before + last)
  }

  /** Lines 73-79. */
  method MoveAll(items: seq<(string, string)>, offset: int) returns (r: Result<seq<(string, Value)>, Error>)
    ensures r == MoveItems(items, offset)
  {
    var out: seq<(string, Value)> := [];
    for k := 0 to |items|
      invariant MoveItems(items[..k], offset) == Ok(out)
    {
      assert items[..k + 1][..k] == items[..k];
      var moved := MoveItem(items[k], offset);
      if moved.Err? {
        MoveFails(items, k + 1, |items|, offset, moved.error);
        assert items[..|items|] == items;
        return Err(moved.error);
      }
      out := out + [moved.value];
    }
    assert items[..|items|] == items;
    return Ok(out);
  }

  lemma {:induction false} MoveFails(items: seq<(string, string)>, j: nat, k: nat, offset: int, e: Error)
    requires j <= k <= |items| && MoveItems(items[..j], offset) == Err(e)
    ensures MoveItems(items[..k], offset) == Err(e)
  {
    if j < k {
      MoveFails(items, j, k - 1, offset, e);
      assert items[..k][..k - 1] == items[..k - 1];
    }
  }

  lemma {:induction false} MergeFails(secs: seq<Section>, j: nat, k: nat, i: nat, n: nat, offset: int, e: Error)
    requires i < n && j <= k <= |secs| && MergeSections(secs[..j], i, n, offset) == Err(e)
    ensures MergeSections(secs[..k], i, n, offset) == Err(e)
  {
    if j < k {
      MergeFails(secs, j, k - 1, i, n, offset, e);
      assert secs[..k][..k - 1] == secs[..k - 1];
    }
  }

  /** Lines 67-94 for one checkpoint. */
  method MergeConfig(secs: seq<Section>, i: nat, n: nat, offset: int) returns (r: Result<seq<OutSection>, Error>)
    requires i < n
    ensures r == MergeSections(secs, i, n, offset)
  {
    var out: seq<OutSection> := [];
    for k := 0 to |secs|
      invariant MergeSections(secs[..k], i, n, offset) == Ok(out)
    {
      assert secs[..k + 1][..k] == secs[..k];
      assert out + [] == out;
      var sec := secs[k];
      if HasCpu(sec.name) {
        var items := MoveAll(sec.items, offset);
        if items.Err? {
          MergeFails(secs, k + 1, |secs|, i, n, offset, items.error);
          assert secs[..|secs|] == secs;
          return Err(items.error);
        }
        var named := if IsFdMap(sec.name) then Put(items.value, "M5_pid", Number(i)) else items.value;
        out := out + [OutSection(Rename(sec.name, IndexText(i, n)), named)];
      } else if i == n - 1 {
        out := out + [OutSection(sec.name, Copy(sec.items))];
      }
    }
    assert secs[..|secs|] == secs;
    return Ok(out);
  }

  // ---------- The whole merge ----------

  function Max(a: int, b: int): int {
    if a < b then b else a
  }

  function LatestTick(cpts: seq<Checkpoint>): nat {
    if cpts == [] then 0 else Max(LatestTick(cpts[..|cpts| - 1]), cpts[|cpts| - 1].curTick)
  }

  /** The sections written for the first `k` of `n` checkpoints. */
  function AllSections(cpts: seq<Checkpoint>, k: nat): Result<seq<OutSection>, Error>
    requires k <= |cpts|
  {
    if k == 0 then Ok([])
    else
      var before :- AllSections(cpts, k - 1);
      var more :- MergeSections(cpts[k - 1].sections, k - 1, |cpts|, Pages(cpts[..k - 1]) * PAGE);
      Ok(before + more)
  }

  const STORE: string := "system.physmem.store0"

  predicate HasSection(sections: seq<Section>, name: string) {
    exists i :: 0 <= i < |sections| && sections[i].name == name
  }

  function AggregateResult(cpts: seq<Checkpoint>, memorySize: int): Result<Merged, Error>
    requires cpts != []
  {
    var sections :- AllSections(cpts, |cpts|);
    if !HasSection(cpts[|cpts| - 1].sections, STORE) then Err(NoSection)
    else
      var total := Pages(cpts);
      var pad := PadPages(total, memorySize);
      Ok(Merged(sections, total, |cpts|, (total + pad) * PAGE, LatestTick(cpts), Images(cpts) + Padding(pad)))
  }

  lemma {:induction false} AllSectionsFails(cpts: seq<Checkpoint>, j: nat, k: nat, e: Error)
    requires j <= k <= |cpts| && AllSections(cpts, j) == Err(e)
    ensures AllSections(cpts, k) == Err(e)
  {
    if j < k {
      AllSectionsFails(cpts, j, k - 1, e);
    }
  }

  lemma OneMore(cpts: seq<Checkpoint>, i: nat)
    requires i < |cpts|
    ensures Pages(cpts[..i + 1]) == Pages(cpts[..i]) + cpts[i].pages
    ensures Images(cpts[..i + 1]) == Images(cpts[..i]) + Copied(cpts[i])
    ensures LatestTick(cpts[..i + 1]) == Max(LatestTick(cpts[..i]), cpts[i].curTick)
  {
    var more := cpts[..i + 1];
    assert more[..|more| - 1] == cpts[..i];
  }

  /** `aggregate` */
  method Aggregate(cpts: seq<Checkpoint>, memorySize: int) returns (r: Result<Merged, Error>)
    requires cpts != []
    ensures r == AggregateResult(cpts, memorySize)
  {
    var sections: seq<OutSection> := [];
    var image: seq<byte> := [];
    var pagePtr, maxTick := 0, 0;
    for i := 0 to |cpts|
      invariant AllSections(cpts, i) == Ok(sections)
      invariant pagePtr == Pages(cpts[..i]) && image == Images(cpts[..i]) && maxTick == LatestTick(cpts[..i])
    {
      var c := cpts[i];
      var merged := MergeConfig(c.sections, i, |cpts|, pagePtr * PAGE);
      if merged.Err? {
        assert AllSections(cpts, i + 1) == Err(merged.error);
        AllSectionsFails(cpts, i + 1, |cpts|, merged.error);
        return Err(merged.error);
      }
      sections := sections + merged.value;
      if c.curTick > maxTick {
        maxTick := c.curTick;
      }
      OneMore(cpts, i);
      pagePtr := pagePtr + c.pages;
      var copied := CopyPages(c.image, c.pages);
      image := image + copied;
    }
    assert cpts[..|cpts|] == cpts;
    var total := pagePtr;
    image, pagePtr := Pad(image, pagePtr, memorySize);
    if !HasSection(cpts[|cpts| - 1].sections, STORE) {
      return Err(NoSection);
    }
    return Ok(Merged(sections, total, |cpts|, pagePtr * PAGE, maxTick, image));
  }
}
