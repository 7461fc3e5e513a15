/** Entities shared by the book and room components. */
module BookDomain {

  /**
   * A member of the GenreType enumeration, identified by the name `getGenreType()`
   * returns. Which members exist, and how category text maps to them, is not part of
   * this model.
   */
  datatype GenreType = GenreType(name: string)

  /**
   * A persisted book, as far as the book and room components read it; `rooms` are the
   * ids of the rooms reading it.
   */
  datatype Book = Book(
    bookId: int, isbn: string, bookTitle: string, imageUrl: string, authorName: string,
    genre: GenreType, rooms: seq<int>, description: string)
}
