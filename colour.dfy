/** The RGBA colour of colour.h. */
module Colours {
  datatype Colour = Colour(r: real, g: real, b: real, a: real)

  /** The colour of a cell fresh from calloc. */
  const Blank: Colour := Colour(0.0, 0.0, 0.0, 0.0)

  const Red: Colour := Colour(1.0, 0.0, 0.0, 1.0)
}
