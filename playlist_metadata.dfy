/** The metadata dictionary describing one playlist: its URL, the owner's
    user name, the playlist title and the number of listing pages. */
module Metadata {

  datatype PlaylistMetadata = PlaylistMetadata(url: string, user: string, title: string, numberOfPages: int)
}
