/** The `gallery_images` table (server/src/database/models/GalleryImage.ts). */
module GalleryImageModel {
  import opened Common
  import opened Domain

  /** Every key lies in [1, bound), the counter is positive and each row
      carries its key as id. */
  ghost predicate KeyedImages(rows: map<int, GalleryImage>, bound: int)
  {
    bound >= 1 && KeysBelow(rows, bound) && forall k :: k in rows ==> rows[k].id == k
  }

  /** The `gallery_images` table: `rows` maps each id to its row. */
  class GalleryTable {
    var rows: map<int, GalleryImage>
    var nextId: int

    ghost predicate Valid()
      reads this
    {
      KeyedImages(rows, nextId)
    }

    constructor (rows0: map<int, GalleryImage>, nextId0: int)
      requires KeyedImages(rows0, nextId0)
      ensures Valid() && rows == rows0 && nextId == nextId0
    {
      rows, nextId := rows0, nextId0;
    }

    /** `create`: one new row under a fresh id. */
    method Create(filename: string, uploadedBy: int, now: int) returns (id: int)
      requires Valid()
      modifies this
      ensures Valid()
      ensures id == old(nextId) && id !in old(rows) && nextId == id + 1
      ensures rows == old(rows)[id := GalleryImage(id, filename, uploadedBy, now)]
    {
      id := nextId;
      rows := rows[id := GalleryImage(id, filename, uploadedBy, now)];
      nextId := nextId + 1;
    }

    /** `delete`: removes exactly row `id`. */
    method Delete(id: int)
      requires Valid()
      modifies this
      ensures Valid() && nextId == old(nextId)
      ensures rows == old(rows) - {id}
    {
      rows := rows - {id};
    }
  }
}
