/** The test settings of StorageFragmentationTest as one record, so that
    both reduction policies and both mutation strategies can be stated. */
module Config {
  import opened Numerics

  /** `(int) Math.ceil(0.4 * 1024 * 1024)`: the payload length every vertex
      starts with, and the length of the random text payloads are cut from. */
  const INITIAL_TEXT_SIZE: nat := 419431

  /** Bytes of residue a deleted record is expected to leave behind. */
  const TOMBSTONE_SIZE: int := 11

  datatype Settings = Settings(
    reuseVertex: bool,             // REUSE_VERTEX: rewrite in place instead of delete and create
    reduction: real,               // REDUCTION: factor or step of the size reduction
    reduceByMultiplication: bool,  // REDUCE_BY_MULTIPLICATION
    vertexCount: nat,              // VERTEX_COUNT: vertices created before the workload
    deleteCreateOps: nat)          // DELETE_CREATE_OPS: cycles of the workload

  /** The values the test is run with. */
  const DEFAULT: Settings := Settings(false, 0.5, true, 5000, 50000)

  /** Settings under which a reduced size never leaves `[1, n]`: a factor in
      `(0, 1]`, or a step whose truncation is not negative. */
  predicate ValidSettings(s: Settings)
  {
    if s.reduceByMultiplication then 0.0 < s.reduction <= 1.0 else s.reduction > -1.0
  }

  lemma InitialTextSizeIsCeil()
    ensures INITIAL_TEXT_SIZE == Ceil(0.4 * 1024.0 * 1024.0)
  {
    CeilUnique(0.4 * 1024.0 * 1024.0, 419431);
  }

  lemma DefaultIsValid()
    ensures ValidSettings(DEFAULT)
  {
  }
}
