/** The hotel records shared by the hotels route and the visitor search page. */
module HotelCatalog {

  /**
   * A room type's availability calendar: one date-to-free map per physical
   * room. Its contents are read only by the availability helper, which is
   * not part of this model.
   */
  type Schedule = seq<map<string, bool>>

  /**
   * Where an upload is written: `uploads/logo-<time>.png` or
   * `uploads/image-<time>-<index>.png`; the time stamp is left out.
   */
  datatype UploadPath = LogoUpload | ImageUpload(index: nat)

  /** Prices are whole currency units. */
  datatype RoomType = RoomType(id: string, name: string, pricePerNight: int, schedule: Schedule)

  datatype Hotel = Hotel(
    id: string,
    name: string,
    logo: UploadPath,
    address: string,
    location: string,
    city: string,
    starRating: int,
    images: seq<UploadPath>,
    roomTypes: seq<RoomType>)
}
