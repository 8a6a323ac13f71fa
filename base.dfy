/** Shared vocabulary of the configuration controller: bytes, paths, optional
    values, the errors the controller and the process manager return, and two
    small facts about sequences used to model Go's map iteration. */
module Base {

  newtype byte = x: int | 0 <= x < 256

  /** A file-system path, as Go's `string`. */
  type Path = string

  /** File content: a configuration value converted with `[]byte(data)`. */
  type Bytes = seq<byte>

  datatype Option<T> = None | Some(value: T)

  datatype Result<T> = Ok(value: T) | Err(error: Error)

  /** The errors of the core; each variant names the message the source wraps
      around the underlying cause. */
  datatype Error =
    | RootNotSet                                 // "Configuration root directory must be set"
    | CannotCreateRoot(root: Path)               // "Unable to create config root directory"
    | CannotGetConfigMap(namespace: string, name: string, cause: Error)
    | CannotDelete(path: Path)                   // "Could not delete obsolete file"
    | CannotCreateParent(path: Path)             // "Could not create parent directory for"
    | CannotWrite(path: Path)                    // "Could not write file"
    | ReloadFailed(cause: Error)                 // "Unable to reload"
    | PopulateFailed(cause: Error)               // "Unable to populate configuration directory"
    | InvalidQualifiedName(input: string)        // "Expected qualified name, found"

  /** Number of occurrences of `x` in `s`. */
  function Count<T(==)>(s: seq<T>, x: T): nat
  {
    if s == [] then 0 else (if s[0] == x then 1 else 0) + Count(s[1..], x)
  }

  lemma {:induction false} CountConcat<T>(a: seq<T>, b: seq<T>, x: T)
    ensures Count(a + b, x) == Count(a, x) + Count(b, x)
  {
    if a == [] {
      assert a + b == b;
    } else {
      assert (a + b)[1..] == a[1..] + b;
      CountConcat(a[1..], b, x);
    }
  }

  lemma {:induction false} CountZero<T>(s: seq<T>, x: T)
    ensures Count(s, x) == 0 <==> x !in s
  {
    if s != [] {
      CountZero(s[1..], x);
      assert s == [s[0]] + s[1..];
    }
  }

  /** The set of elements of a sequence. */
  function Elems<T>(s: seq<T>): set<T>
  {
    set x | x in s
  }

  predicate NoDuplicates<T(==)>(s: seq<T>)
  {
    forall i, j :: 0 <= i < j < |s| ==> s[i] != s[j]
  }

  /** `order` visits every element of `elems` exactly once: one possible
      iteration order of a Go map whose keys are `elems`. */
  predicate IsEnumeration<T(==)>(order: seq<T>, elems: set<T>)
  {
    NoDuplicates(order) && Elems(order) == elems
  }
}
