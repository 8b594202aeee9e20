/** The two-valued ON/OFF modes of the drawing widgets (`DRAW_MODE`, `REMOVE_MODE`). */
module Enums {
  datatype Mode = Off | On {
    function Toggled(): (m: Mode)
      ensures m != this
    {
      if this == Off then On else Off
    }
  }
}
