/** The optional result used for operations whose source raises on some inputs. */
module Options {
  datatype Option<+T> = None | Some(value: T)
}
