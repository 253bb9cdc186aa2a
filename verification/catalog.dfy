/** The demo-file catalog of the transmission showcase: the (name, size) listing
    the simulated transmission walks over, its byte total, and the rule that
    creates six sample files when the demo directory does not exist yet.

    The file system is not modelled. The directory is given as its state before
    preparation (`Missing`, or `Present` with its listing), and the random size
    multipliers are given as a sequence. */
module FileCatalog {

  /** One file of the demo directory: its name and its size in bytes. */
  datatype FileEntry = FileEntry(name: string, size: nat)

  /** The demo directory as preparation finds it. */
  datatype Directory = Missing | Present(entries: seq<FileEntry>)

  /** Number of sample files written into a fresh demo directory. */
  const SampleCount: nat := 6
  /** Bounds of the random size multiplier, in KiB, both inclusive. */
  const MinSampleKiB: nat := 80
  const MaxSampleKiB: nat := 200
  const KiB: nat := 1024

  /** Total size in bytes of a listing. */
  function SumSizes(files: seq<FileEntry>): nat
  {
    if |files| == 0 then 0 else files[0].size + SumSizes(files[1..])
  }

  lemma {:induction false} SumSizesAppend(a: seq<FileEntry>, b: seq<FileEntry>)
    ensures SumSizes(a + b) == SumSizes(a) + SumSizes(b)
  {
    if |a| == 0 {
      assert a + b == b;
    } else {
      assert (a + b)[1..] == a[1..] + b;
      SumSizesAppend(a[1..], b);
    }
  }

  /** No single file is larger than the whole listing. */
  lemma {:induction false} EntryAtMostSum(files: seq<FileEntry>, j: nat)
    requires j < |files|
    ensures files[j].size <= SumSizes(files)
  {
    if j > 0 {
      EntryAtMostSum(files[1..], j - 1);
    }
  }

  /** A listing whose sizes all lie in [lo, hi] totals between |files|*lo and |files|*hi. */
  lemma {:induction false} SumSizesBounds(files: seq<FileEntry>, lo: nat, hi: nat)
    requires forall i :: 0 <= i < |files| ==> lo <= files[i].size <= hi
    ensures |files| * lo <= SumSizes(files) <= |files| * hi
  {
    if |files| > 0 {
      SumSizesBounds(files[1..], lo, hi);
      assert |files| * lo == lo + (|files| - 1) * lo;
      assert |files| * hi == hi + (|files| - 1) * hi;
    }
  }

  /** Name of the i-th sample file, "sample_<i>.bin". */
  function SampleName(i: nat): string
    requires i < 10
  {
    "sample_" + [('0' as int + i) as char] + ".bin"
  }

  lemma SampleNamesDistinct(i: nat, j: nat)
    requires i < 10 && j < 10 && i != j
    ensures SampleName(i) != SampleName(j)
  {
    assert SampleName(i)[7] != SampleName(j)[7];
  }

  /** The random source's promise for the size multipliers: one per sample
      file, each drawn from [80, 200]. */
  predicate ValidMultipliers(ks: seq<nat>)
  {
    |ks| == SampleCount && forall i :: 0 <= i < |ks| ==> MinSampleKiB <= ks[i] <= MaxSampleKiB
  }

  /** The sample files written into a fresh demo directory. */
  function Synthesize(ks: seq<nat>): (files: seq<FileEntry>)
    requires ValidMultipliers(ks)
    ensures |files| == SampleCount
    ensures forall i :: 0 <= i < |files| ==> files[i].name == SampleName(i) && files[i].size == ks[i] * KiB
    ensures forall i :: 0 <= i < |files| ==> MinSampleKiB * KiB <= files[i].size <= MaxSampleKiB * KiB
  {
    seq(|ks|, i requires 0 <= i < |ks| => FileEntry(SampleName(i), ks[i] * KiB))
  }

  /** A fresh demo directory holds six distinctly named files whose total lies
      in [6 * 80 KiB, 6 * 200 KiB]; in particular it is positive. */
  lemma SynthesizedCatalogBounds(ks: seq<nat>)
    requires ValidMultipliers(ks)
    ensures forall i, j :: 0 <= i < j < |Synthesize(ks)| ==> Synthesize(ks)[i].name != Synthesize(ks)[j].name
    ensures SampleCount * MinSampleKiB * KiB <= SumSizes(Synthesize(ks)) <= SampleCount * MaxSampleKiB * KiB
  {
    var files := Synthesize(ks);
    forall i, j | 0 <= i < j < |files|
      ensures files[i].name != files[j].name
    {
      SampleNamesDistinct(i, j);
    }
    SumSizesBounds(files, MinSampleKiB * KiB, MaxSampleKiB * KiB);
  }

  /** Prepares the catalog: creates the sample files when the directory is
      missing, then lists the directory and totals the sizes in listing order.
      A missing directory is listed in creation order. */
  method PrepareFiles(dir: Directory, ks: seq<nat>) returns (files: seq<FileEntry>, total: nat)
    requires dir.Missing? ==> ValidMultipliers(ks)
    ensures dir.Present? ==> files == dir.entries
    ensures dir.Missing? ==> files == Synthesize(ks)
    ensures total == SumSizes(files)
  {
    var listing := if dir.Missing? then Synthesize(ks) else dir.entries;
    files := [];
    total := 0;
    var i := 0;
    while i < |listing|
      invariant i <= |listing|
      invariant files == listing[..i]
      invariant total == SumSizes(listing[..i])
    {
      assert listing[..i + 1] == listing[..i] + [listing[i]];
      SumSizesAppend(listing[..i], [listing[i]]);
      files := files + [listing[i]];
      total := total + listing[i].size;
      i := i + 1;
    }
    assert listing[..i] == listing;
  }
}
