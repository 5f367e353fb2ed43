/** Track infos and the comparison that orders them. */
module Tracks {
  import opened Common

  datatype TrackInfo = TrackInfo(filename: string, fields: seq<int>)

  type Compare = Order<TrackInfo>
}
