/** The nullable-pointer convention of the source (`const MetaFieldBase *`,
    where `nullptr` means "no field") as an option value. */
module Wrappers {

  datatype Option<+T> = None | Some(value: T)
}
