/** Result types shared by the whole model. */
module Base {

  datatype Option<+T> = None | Some(value: T)

  datatype Result<+T, +E> = Ok(value: T) | Err(error: E)

  type Byte = n: nat | n < 256

  function Min(a: int, b: int): int {
    if a <= b then a else b
  }

  function Max(a: int, b: int): int {
    if a <= b then b else a
  }

  /** One pass of a wait loop: the shared state as others left it, and the clock. */
  datatype Wake<+T> = Wake(found: T, now: int)

  /** Between two passes the loop sleeps, so the clock moves on. */
  ghost predicate Sleeps<T(!new)>(wakes: nat -> Wake<T>) {
    forall i: nat, j: nat :: i < j ==> wakes(i).now < wakes(j).now
  }

  /** What a dict lookup answers. */
  function Lookup<K, V>(m: map<K, V>, k: K): Option<V> {
    if k in m then Some(m[k]) else None
  }
}
