/** Geographic points, as GeoDjango's `Point(x, y)`: x is the longitude, y the latitude. */
module Geo {
  datatype Point = Point(x: real, y: real)
}
