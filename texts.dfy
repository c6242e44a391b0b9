/** Text helpers that the renderers of function types and assembly share. */
module Texts {

  /** The items one after the other, with nothing between them. */
  function Concatenated(items: seq<string>): string
  {
    if items == [] then "" else items[0] + Concatenated(items[1..])
  }
}
