/** The closing arithmetic of `testFragmentation`: the bytes the deleted
    records are expected to leave behind and the final size without them. */
module Report {
  import opened Config

  datatype FragmentationReport = FragmentationReport(
    initialSize: int,            // printDBSize() after seeding
    finalSize: int,              // printDBSize() after the workload
    deletedRecords: int,
    expectedTombstoneSize: int,
    effSize: int)

  function MakeReport(initialSize: int, finalSize: int, deletedRecords: int): (r: FragmentationReport)
    ensures r.initialSize == initialSize && r.finalSize == finalSize
    ensures r.deletedRecords == deletedRecords
    ensures r.expectedTombstoneSize == TOMBSTONE_SIZE * deletedRecords
    ensures r.effSize + r.expectedTombstoneSize == finalSize
  {
    var expectedTombstoneSize := deletedRecords * TOMBSTONE_SIZE;
    FragmentationReport(initialSize, finalSize, deletedRecords,
                        expectedTombstoneSize, finalSize - expectedTombstoneSize)
  }

  /** A run that deleted nothing (the reuse strategy) expects no tombstones,
      so its effective size is its final size; every deletion lowers the
      effective size by one tombstone. */
  lemma TombstoneAccounting(initialSize: int, finalSize: int, deletedRecords: int)
    ensures MakeReport(initialSize, finalSize, 0).effSize == finalSize
    ensures MakeReport(initialSize, finalSize, deletedRecords + 1).effSize
            == MakeReport(initialSize, finalSize, deletedRecords).effSize - TOMBSTONE_SIZE
  {
  }

  lemma ReportExample()
    ensures MakeReport(1000000, 1200000, 1000).expectedTombstoneSize == 11000
    ensures MakeReport(1000000, 1200000, 1000).effSize == 1189000
  {
  }
}
