/** Option and Result types shared by every module of the model, and the
    failures the loader can raise. Every C++ exception, failed `assert` and
    read that would be undefined behaviour in the source becomes an `Err`. */
module Wrappers {

  datatype Option<+T> = None | Some(value: T)

  /** What went wrong, by the place in the source that raises it. */
  datatype Error =
    | WrongExtension        // the path does not end in ".glb"
    | InvalidGlb            // "Invalid GLB file!": too short, or chunk offset past the end
    | ParseError(offset: nat) // a failed parser assert, or an unterminated/missing key quote
    | TypeMismatch          // std::get on the wrong variant alternative (bad_variant_access)
    | NotIterable           // begin()/end() on a scalar: throw(0)
    | InvalidArgument       // stoi/stod found no number
    | OutOfRange            // stoi result does not fit an int; substr starting past the end
    | OutOfBounds           // a read past a buffer or a vector: undefined behaviour in C++

  datatype Result<+T> = Ok(value: T) | Err(error: Error) {
    predicate IsFailure() { Err? }

    function PropagateFailure<U>(): Result<U>
      requires Err?
    {
      Err(error)
    }

    function Extract(): T
      requires Ok?
    {
      value
    }
  }
}
