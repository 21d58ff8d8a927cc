/** The part of an item stack's NBT compound that the model reads and writes:
    a map from key to tag, with the getter defaults of NBTTagCompound. A stack
    without a compound is the empty map. */
module Nbt {

  /** A tag. `NumberTag` stands for every integral numeric tag (byte, short,
      int, long) by its value; `OtherTag` for any other tag type. */
  datatype Tag = NumberTag(n: int) | StringTag(s: string) | OtherTag

  type Compound = map<string, Tag>

  /** The low eight bits of `n` read as a signed byte, the narrowing every
      numeric tag performs when it is read as a byte. */
  function ToByte(n: int): (b: int)
    ensures -128 <= b < 128
    ensures (b - n) % 256 == 0
  {
    var low := n % 256;
    if low < 128 then low else low - 256
  }

  /** The byte stored under `key`: 0 when the key is absent or holds a
      non-numeric tag. */
  function GetByte(c: Compound, key: string): (b: int)
    ensures -128 <= b < 128
    ensures key !in c ==> b == 0
  {
    if key in c && c[key].NumberTag? then ToByte(c[key].n) else 0
  }

  /** A boolean is a byte that is not zero. */
  function GetBoolean(c: Compound, key: string): bool {
    GetByte(c, key) != 0
  }

  /** The string stored under `key`: empty when the key is absent. A tag that
      is not a string is modelled as reading empty too. */
  function GetString(c: Compound, key: string): (s: string)
    ensures key !in c ==> s == []
  {
    if key in c && c[key].StringTag? then c[key].s else []
  }

  /** Stores `b` as the byte 1 or 0. */
  function SetBoolean(c: Compound, key: string, b: bool): (r: Compound)
    ensures key in r && GetBoolean(r, key) == b
    ensures forall k | k != key :: (k in r <==> k in c) && (k in c ==> r[k] == c[k])
  {
    c[key := NumberTag(if b then 1 else 0)]
  }

  function SetString(c: Compound, key: string, s: string): (r: Compound)
    ensures key in r && GetString(r, key) == s
    ensures forall k | k != key :: (k in r <==> k in c) && (k in c ==> r[k] == c[k])
  {
    c[key := StringTag(s)]
  }
}
