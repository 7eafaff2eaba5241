/** The plain C structs of the backend that the value types extend: `SDL_Point` and `SDL_Rect`. */
module Sdl {
  import opened CTypes

  datatype SdlPoint = SdlPoint(x: Int32, y: Int32)

  datatype SdlRect = SdlRect(x: Int32, y: Int32, w: Int32, h: Int32)
}
