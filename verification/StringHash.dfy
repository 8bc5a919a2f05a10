/** The 32-bit string hash cached in the symbol table entries (util.c). */
module StringHash {

  /** A C char is signed: it is sign-extended before it is added. */
  function CharWord(c: char): bv32 {
    var b := c as int % 256;
    if b < 128 then b as bv32 else (b + 0xFFFF_FF00) as bv32
  }

  function Mix(hash: bv32, c: char): bv32 {
    var h := hash + CharWord(c);
    var h := h + (h << 10);
    h ^ (h >> 6)
  }

  function MixAll(hash: bv32, key: string): bv32 {
    if key == "" then hash else Mix(MixAll(hash, key[..|key| - 1]), key[|key| - 1])
  }

  function Finish(hash: bv32): bv32 {
    var h := hash + (hash << 3);
    var h := h ^ (h >> 11);
    h + (h << 15)
  }

  function HashOf(key: string): bv32 {
    Finish(MixAll(0, key))
  }

  method UtilHash(key: string) returns (hash: bv32)
    ensures hash == HashOf(key)
  {
    hash := 0;
    for i := 0 to |key|
      invariant hash == MixAll(0, key[..i])
    {
      assert key[..i + 1][..i] == key[..i];
      hash := Mix(hash, key[i]);
    }
    assert key[..|key|] == key;
    hash := Finish(hash);
  }
}
