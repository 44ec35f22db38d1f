/** The storage directories. */
module Storage {
  import opened Basics
  import opened LogReplay
  import opened Index

  class Disk {
    var logs: Directory              // logs/*.log and the compactor's temporary files
    var snapshot: SnapshotFile       // logs/index-snapshot.bin
    var blobs: map<string, Bytes>    // blobs/<content hash>
    var temps: map<string, Bytes>    // tmp/<uuid>.tmp

    constructor ()
      ensures logs == map[] && snapshot == Missing && blobs == map[] && temps == map[]
    {
      logs, snapshot, blobs, temps := map[], Missing, map[], map[];
    }
  }
}
