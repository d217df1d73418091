/** What a writer may ask for. */
module Updates {
  import opened ByteStrings

  datatype Op = Put(key: Bytes, value: Bytes) | Delete(key: Bytes)
}
