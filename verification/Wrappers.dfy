// What every module shares: the value-or-nothing and value-or-errno types, and the
// smaller and the larger of two numbers.
module Wrappers {

  function Min(a: int, b: int): int { if a < b then a else b }

  function Max(a: int, b: int): int { if a > b then a else b }

  datatype Option<+T> = None | Some(value: T) {
    function GetOr(other: T): T { if Some? then value else other }
  }

  // The errnos the modelled operations fail with.
  datatype Errno =
    | ENOENT | ENOTDIR | EISDIR | EEXIST | ENOTEMPTY | EBUSY | EPERM | EINVAL | ELOOP | ENXIO
    | EFBIG | EBADF | ERANGE | ESTALE | ENAMETOOLONG

  datatype Result<+T> = Ok(value: T) | Err(error: Errno)
}
