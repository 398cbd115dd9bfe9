/** `printDBSize`: the database folder's files summed into three buckets by
    their lower-cased extension, with the write-ahead log measured apart and
    left out of the returned total. */
module SizeProbe {
  import opened HumanSize

  /** One entry of `dbFolder.listFiles()`: its name and `file.length()`. */
  datatype FileEntry = FileEntry(name: string, length: nat)

  datatype Bucket = Pcl | Cpm | Other

  /** The sizes `printDBSize` prints: the WAL folder and the three buckets. */
  datatype SizeSnapshot = SizeSnapshot(wal: int, pcl: int, cpm: int, other: int)
  {
    /** What `printDBSize` returns: everything but the WAL. */
    function Total(): int { pcl + cpm + other }
  }

  /** `String.lastIndexOf(c)`: the last position of `c`, or -1. */
  function LastIndexOf(s: string, c: char): (r: int)
    ensures -1 <= r < |s|
    ensures r >= 0 ==> s[r] == c
    ensures forall j :: r < j < |s| ==> s[j] != c
  {
    if s == [] then -1
    else if s[|s| - 1] == c then |s| - 1
    else LastIndexOf(s[..|s| - 1], c)
  }

  /** `FilenameUtils.indexOfExtension`: the last dot, unless a path
      separator follows it. */
  function IndexOfExtension(name: string): int
  {
    var dot := LastIndexOf(name, '.');
    var sep := if LastIndexOf(name, '/') >= LastIndexOf(name, '\\')
               then LastIndexOf(name, '/') else LastIndexOf(name, '\\');
    if sep > dot then -1 else dot
  }

  /** `FilenameUtils.getExtension`: the text after the extension dot, or the
      empty string. */
  function GetExtension(name: string): string
  {
    var i := IndexOfExtension(name);
    if i == -1 then "" else name[i + 1..]
  }

  /** `Character.toLowerCase` on the characters that matter here: no
      character outside A-Z lower-cases to one of the letters of "pcl" or
      "cpm", so comparing with those is unaffected by the rest. */
  function LowerChar(c: char): char
  {
    if 'A' <= c <= 'Z' then (c as int + 32) as char else c
  }

  function Lower(s: string): (r: string)
    ensures |r| == |s| && forall i :: 0 <= i < |s| ==> r[i] == LowerChar(s[i])
  {
    seq(|s|, i requires 0 <= i < |s| => LowerChar(s[i]))
  }

  /** A text lower-cases to a word of lower-case letters exactly when each
      of its characters is that word's letter in lower or upper case. */
  lemma LowerMatchesIgnoringCase(t: string, w: string)
    requires forall i :: 0 <= i < |w| ==> 'a' <= w[i] <= 'z'
    ensures Lower(t) == w <==>
      |t| == |w| && forall i :: 0 <= i < |t| ==> t[i] == w[i] || t[i] as int == w[i] as int - 32
  {
  }

  /** The `switch (ext)` of `printDBSize`. */
  function BucketOf(name: string): Bucket
  {
    var ext := Lower(GetExtension(name));
    if ext == "pcl" then Pcl else if ext == "cpm" then Cpm else Other
  }

  /** `name` ends with `suffix`, ignoring the case of ASCII letters. */
  predicate EndsWithIgnoreCase(name: string, suffix: string)
  {
    |name| >= |suffix| && Lower(name[|name| - |suffix|..]) == suffix
  }

  predicate NoDotOrSeparator(e: string)
  {
    forall j :: 0 <= j < |e| ==> e[j] != '.' && e[j] != '/' && e[j] != '\\'
  }

  /** A name that ends in a dot and then a text with no dot or separator has
      that text as its extension. */
  lemma ExtensionOfSuffix(name: string, e: string)
    requires |name| > |e| && name[|name| - |e| - 1] == '.' && name[|name| - |e|..] == e
    requires NoDotOrSeparator(e)
    ensures GetExtension(name) == e
  {
    var n := |name|;
    forall j | n - |e| <= j < n
      ensures name[j] != '.' && name[j] != '/' && name[j] != '\\'
    {
      assert name[j] == e[j - (n - |e|)];
    }
  }

  /** A non-empty extension is what follows the name's last dot. */
  lemma ExtensionIsSuffix(name: string)
    ensures var e := GetExtension(name);
      e != [] ==> |name| > |e| && name[|name| - |e| - 1] == '.' && name[|name| - |e|..] == e
  {
  }

  /** A name ending in the dot and letters of a bucket's extension, in any
      case, falls into that bucket. */
  lemma SuffixGivesBucket(name: string, ext: string, b: Bucket)
    requires (ext == "pcl" && b == Pcl) || (ext == "cpm" && b == Cpm)
    requires EndsWithIgnoreCase(name, "." + ext)
    ensures BucketOf(name) == b
  {
    var n := |name|;
    var e := name[n - 3..];
    assert name[n - 4..] == [name[n - 4]] + e;
    assert Lower(name[n - 4..]) == [LowerChar(name[n - 4])] + Lower(e);
    assert Lower(e) == ext;
    assert NoDotOrSeparator(e) by {
      forall j | 0 <= j < 3 ensures e[j] != '.' && e[j] != '/' && e[j] != '\\' {
        assert LowerChar(e[j]) == ext[j];
      }
    }
    ExtensionOfSuffix(name, e);
  }

  /** A name in a bucket ends in the dot and letters of its extension, in
      some case. */
  lemma BucketGivesSuffix(name: string, ext: string, b: Bucket)
    requires (ext == "pcl" && b == Pcl) || (ext == "cpm" && b == Cpm)
    requires BucketOf(name) == b
    ensures EndsWithIgnoreCase(name, "." + ext)
  {
    var n := |name|;
    var e := GetExtension(name);
    assert Lower(e) == ext;
    ExtensionIsSuffix(name);
    var tail := name[n - 4..];
    var want := "." + ext;
    assert |tail| == 4 && tail[0] == '.' && tail[1..] == e;
    forall i | 0 <= i < 4 ensures Lower(tail)[i] == want[i] {
      if i > 0 {
        assert tail[i] == e[i - 1];
        assert Lower(e)[i - 1] == LowerChar(e[i - 1]);
      }
    }
    assert Lower(tail) == want;
  }

  /** A file is in one of the named buckets exactly when its name ends with
      that extension's dot and letters, in any case. */
  lemma BucketBySuffix(name: string, ext: string, b: Bucket)
    requires (ext == "pcl" && b == Pcl) || (ext == "cpm" && b == Cpm)
    ensures BucketOf(name) == b <==> EndsWithIgnoreCase(name, "." + ext)
  {
    if EndsWithIgnoreCase(name, "." + ext) {
      SuffixGivesBucket(name, ext, b);
    }
    if BucketOf(name) == b {
      BucketGivesSuffix(name, ext, b);
    }
  }

  /** Bytes of the listed files that fall into bucket `b`. */
  function BucketSize(files: seq<FileEntry>, b: Bucket): int
  {
    if files == [] then 0
    else
      var f := files[|files| - 1];
      BucketSize(files[..|files| - 1], b) + (if BucketOf(f.name) == b then f.length else 0)
  }

  /** Bytes of all listed files. */
  function TotalLength(files: seq<FileEntry>): int
  {
    if files == [] then 0 else TotalLength(files[..|files| - 1]) + files[|files| - 1].length
  }

  /** Every file lands in exactly one bucket, so the buckets add up to the
      whole folder. */
  lemma {:induction false} BucketsPartition(files: seq<FileEntry>)
    ensures BucketSize(files, Pcl) + BucketSize(files, Cpm) + BucketSize(files, Other)
            == TotalLength(files)
  {
    if files != [] {
      BucketsPartition(files[..|files| - 1]);
    }
  }

  /** The snapshot a listing yields. */
  function Snapshot(files: seq<FileEntry>, walSize: int): SizeSnapshot
  {
    SizeSnapshot(walSize, BucketSize(files, Pcl), BucketSize(files, Cpm), BucketSize(files, Other))
  }

  /** The line `printDBSize` prints. */
  function SizeLine(s: SizeSnapshot): string
  {
    "WAL: " + ToHumanSize(s.wal) + ", PCL: " + ToHumanSize(s.pcl) +
    ", CPM: " + ToHumanSize(s.cpm) + ", Other " + ToHumanSize(s.other) + "\n"
  }

  /** `printDBSize()`, given the folder listing and the WAL folder's size:
      returns the line it prints and the size of the folder without the WAL. */
  method PrintDbSize(files: seq<FileEntry>, walSize: int) returns (line: string, total: int)
    ensures line == SizeLine(Snapshot(files, walSize))
    ensures total == Snapshot(files, walSize).Total() == TotalLength(files)
  {
    var pclSize, cpmSize, other := 0, 0, 0;
    for i := 0 to |files|
      invariant pclSize == BucketSize(files[..i], Pcl)
      invariant cpmSize == BucketSize(files[..i], Cpm)
      invariant other == BucketSize(files[..i], Other)
    {
      assert files[..i + 1][..i] == files[..i];
      var size := files[i].length;
      var ext := Lower(GetExtension(files[i].name));
      if ext == "pcl" {
        pclSize := pclSize + size;
      } else if ext == "cpm" {
        cpmSize := cpmSize + size;
      } else {
        other := other + size;
      }
    }
    assert files[..|files|] == files;
    var snapshot := SizeSnapshot(walSize, pclSize, cpmSize, other);
    assert snapshot == Snapshot(files, walSize);
    line := SizeLine(snapshot);
    BucketsPartition(files);
    total := snapshot.Total();
  }
}
