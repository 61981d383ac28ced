/** How many sectors each FAT takes. Its size and the cluster count depend on each
    other: two writers correct a guess until it holds, a third divides once. */
module FatSizing {

  const SECTOR := 512
  const NUM_FATS := 2
  /** Fewer clusters than this is FAT16, whatever the boot sector says. */
  const MIN_FAT32_CLUSTERS := 65525

  /** Clusters left over once the reserved area and both FATs are taken out. */
  function Leftover(sectors: nat, reserved: nat, perCluster: nat, fat: nat): int
    requires perCluster > 0
  {
    (sectors - reserved - NUM_FATS * fat) / perCluster
  }

  /** The FAT has an entry for each of those clusters and the two reserved ones. */
  predicate RoomFor(fat: nat, clusters: int) {
    fat * SECTOR >= (clusters + 2) * 4
  }

  /** Reserved area, both FATs and every cluster lie inside the volume. */
  predicate Fits(sectors: nat, reserved: nat, perCluster: nat, fat: nat, clusters: int) {
    reserved + NUM_FATS * fat + clusters * perCluster <= sectors
  }

  /** A larger FAT leaves no more clusters, so it has all the more room for them. */
  lemma LeftoverAntitone(sectors: nat, reserved: nat, perCluster: nat, fat: nat, fat': nat)
    requires perCluster > 0 && fat <= fat'
    ensures Leftover(sectors, reserved, perCluster, fat') <= Leftover(sectors, reserved, perCluster, fat)
  {
    DivMonotone(sectors - reserved - NUM_FATS * fat', sectors - reserved - NUM_FATS * fat, perCluster);
  }

  lemma DivMonotone(a: int, b: int, d: nat)
    requires d > 0 && a <= b
    ensures a / d <= b / d
  {
    var q, r := a / d, b / d;
    assert d * q <= a && b < d * (r + 1);
    Cancel(d, q, r + 1);
  }

  lemma Cancel(d: nat, x: int, y: int)
    requires d * x < d * y
    ensures x < y
  {
  }

  lemma DivMulBound(a: int, d: nat)
    requires d > 0
    ensures a / d * d <= a
  {
  }

  /** Where both solvers stop. */
  function SolvedFat(sectors: nat, reserved: nat, perCluster: nat): (r: nat)
    requires perCluster > 0
  {
    var first := Leftover(sectors, reserved, perCluster, 1);
    if RoomFor(1, first) then 1 else ((first + 2) * 4 + SECTOR - 1) / SECTOR
  }

  /** The solver in the SD-card writer: compare bytes, correct, compare again. It
      corrects at most once. */
  method SolveByBytes(sectors: nat, reserved: nat, perCluster: nat)
    returns (fat: nat, clusters: int, corrections: nat)
    requires perCluster > 0
    ensures corrections <= 1 && fat >= 1
    ensures clusters == Leftover(sectors, reserved, perCluster, fat)
    ensures RoomFor(fat, clusters) && Fits(sectors, reserved, perCluster, fat, clusters)
    ensures fat == SolvedFat(sectors, reserved, perCluster)
    ensures corrections == 0 <==> fat == 1
  {
    fat, corrections := 1, 0;
    while true
      invariant fat >= 1 && corrections <= 1
      invariant corrections == 0 ==> fat == 1
      invariant corrections == 1 ==>
                  && fat == ((Leftover(sectors, reserved, perCluster, 1) + 2) * 4 + SECTOR - 1) / SECTOR > 1
                  && !RoomFor(1, Leftover(sectors, reserved, perCluster, 1))
      decreases 1 - corrections
    {
      var data := sectors - reserved - NUM_FATS * fat;
      clusters := data / perCluster;
      DivMulBound(data, perCluster);
      LeftoverAntitone(sectors, reserved, perCluster, 1, fat);
      var need := (clusters + 2) * 4;
      if fat * SECTOR >= need { break; }
      fat := (need + SECTOR - 1) / SECTOR;
      corrections := corrections + 1;
    }
  }

  /** The solver in the EFI disk writer compares whole sectors instead. */
  method SolveBySectors(sectors: nat, reserved: nat, perCluster: nat)
    returns (fat: nat, clusters: int, corrections: nat)
    requires perCluster > 0
    ensures corrections <= 1 && fat >= 1
    ensures clusters == Leftover(sectors, reserved, perCluster, fat)
    ensures RoomFor(fat, clusters) && Fits(sectors, reserved, perCluster, fat, clusters)
    ensures fat == SolvedFat(sectors, reserved, perCluster)
  {
    fat, corrections := 1, 0;
    while true
      invariant fat >= 1 && corrections <= 1
      invariant corrections == 1 ==>
                  && fat == ((Leftover(sectors, reserved, perCluster, 1) + 2) * 4 + SECTOR - 1) / SECTOR
                  && !RoomFor(1, Leftover(sectors, reserved, perCluster, 1))
      invariant corrections == 0 ==> fat == 1
      decreases 1 - corrections
    {
      var data := sectors - reserved - NUM_FATS * fat;
      clusters := data / perCluster;
      DivMulBound(data, perCluster);
      LeftoverAntitone(sectors, reserved, perCluster, 1, fat);
      var need := ((clusters + 2) * 4 + SECTOR - 1) / SECTOR;
      if need <= fat { break; }
      fat := need;
      corrections := corrections + 1;
    }
  }

  // ---- the closed form -------------------------------------------------------------

  const FIXTURE_RESERVED := 32
  const FIXTURE_PER_CLUSTER := 8

  /** `data // (8 + 8 / 512.0)`: the divisor is 513/64, exactly representable. */
  function EstimatedClusters(data: int): int {
    data * 64 / 513
  }

  function EstimatedFat(sectors: nat): int {
    (EstimatedClusters(sectors - FIXTURE_RESERVED) * 4 + SECTOR - 1) / SECTOR + 1
  }

  /** The estimate is the floor of the real quotient. */
  lemma EstimateIsFloor(data: int)
    ensures EstimatedClusters(data) == (data as real / (8.0 + 8.0 / 512.0)).Floor
  {
    var q := data as real / (8.0 + 8.0 / 512.0);
    var c := EstimatedClusters(data);
    assert c * 513 <= data * 64 < (c + 1) * 513;
    assert q * 513.0 == data as real * 64.0;
    assert c as real * 513.0 <= data as real * 64.0 < (c + 1) as real * 513.0;
  }

  /** However large the volume, the estimated FAT has room for every cluster the
      rest of the volume turns into; and it fits wherever any cluster is left. */
  lemma EstimateIsSound(sectors: nat)
    ensures EstimatedFat(sectors) >= 1
    ensures var fat := EstimatedFat(sectors);
            var clusters := Leftover(sectors, FIXTURE_RESERVED, FIXTURE_PER_CLUSTER, fat);
            RoomFor(fat, clusters) &&
            Fits(sectors, FIXTURE_RESERVED, FIXTURE_PER_CLUSTER, fat, clusters)
  {
    var a := sectors - FIXTURE_RESERVED;
    var c, fat := EstimatedClusters(a), EstimatedFat(sectors);
    assert fat * SECTOR >= c * 4 + SECTOR;
    assert 513 * (c + 1) > 64 * a;
    var clusters := (a - NUM_FATS * fat) / 8;
    assert 8 * clusters <= a - NUM_FATS * fat;
    assert clusters <= c;
  }
}
