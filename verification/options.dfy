/** A value that may be absent: stands for a C# lookup that can miss or a
    reference that can be null. */
module Options {

  datatype Option<T> = None | Some(value: T)
}
