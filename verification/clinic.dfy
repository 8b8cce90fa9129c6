/** The clinic's resources as the slot finders see them: vets and rooms, each an id and a name. */
module Clinic {

  datatype Vet = Vet(id: int, name: string)

  datatype Room = Room(id: int, name: string)

  /** `[v.id for v in vets]` */
  function VetIds(vets: seq<Vet>): (ids: seq<int>)
    ensures |ids| == |vets|
    ensures forall i | 0 <= i < |vets| :: ids[i] == vets[i].id
  {
    seq(|vets|, i requires 0 <= i < |vets| => vets[i].id)
  }

  /**
   * `[r.id for r in rooms]`: the same projection as `VetIds`, kept as its own function because the
   * source builds the two lists separately from two different tables.
   */
  function RoomIds(rooms: seq<Room>): (ids: seq<int>)
    ensures |ids| == |rooms|
    ensures forall i | 0 <= i < |rooms| :: ids[i] == rooms[i].id
  {
    seq(|rooms|, i requires 0 <= i < |rooms| => rooms[i].id)
  }
}
