/** Identifiers and small result types shared by every part of the model. */
module Common {
  type ObjectId = int
  type FieldId = int
  type TransactionId = int

  newtype Byte = b: int | 0 <= b < 256
  type Bytes = seq<Byte>

  const NO_TRANSACTION: TransactionId := -1
  const NO_OBJECT: ObjectId := -1

  datatype Option<+T> = None | Some(value: T)

  /** `Thrown` stands for an exception that leaves the call without a value. */
  datatype Result<+T> = Ok(value: T) | Thrown

  /** A stored field of one object. */
  datatype ObjectFieldId = ObjectFieldId(objId: ObjectId, fieldId: FieldId)

  /** One value of one indexed field; the objects having it form a set. */
  datatype IndexId = IndexId(fieldId: FieldId, indexValue: Bytes)

  function Lookup<K, V>(m: map<K, V>, k: K): Option<V> {
    if k in m then Some(m[k]) else None
  }

  /** The map after storing the given values and deleting the keys given None. */
  function Updated<K(!new), V>(m: map<K, V>, changes: map<K, Option<V>>): (after: map<K, V>)
    ensures forall k :: Lookup(after, k) == if k in changes then changes[k] else Lookup(m, k)
  {
    map k | k in m.Keys + changes.Keys && (k in changes ==> changes[k].Some?) ::
      if k in changes then changes[k].value else m[k]
  }

  function Max(a: int, b: int): int {
    if a >= b then a else b
  }

  function Min(a: int, b: int): int {
    if a <= b then a else b
  }
}
