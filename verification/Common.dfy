/** Values shared by the modules of the dialog library. */
module Common {

  datatype Option<+T> = None | Some(value: T)

  type Byte = b: int | 0 <= b < 0x100
  type TChar = c: int | 0 <= c < 0x1_0000
  type Text = seq<TChar>

  const ULONG_MAX := 0xffff_ffff
  const LONG_MAX := 0x7fff_ffff

  // What a NUL-terminated string can hold.
  predicate IsText(s: Text) {
    forall i :: 0 <= i < |s| ==> s[i] != 0
  }

  function Min(a: int, b: int): int {
    if a <= b then a else b
  }
}
