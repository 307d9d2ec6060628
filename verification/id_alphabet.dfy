/**
 * The id generator in `utils.ts`: each random byte is masked to an index and the index
 * picks a character of `0-9a-z`, `A-Z` or `-`. The random bytes are a parameter; the
 * generated id is read from the last byte back to the first.
 */
module IdAlphabet {
  /** The mask the generator applies, as written. */
  const WrittenMask: bv8 := 61
  /** The mask that reaches every index the character choice handles. */
  const FullMask: bv8 := 63

  predicate IsAlphanumeric(c: char) {
    '0' <= c <= '9' || 'a' <= c <= 'z' || 'A' <= c <= 'Z'
  }

  /** The character for an index: `index.toString(36)` below 36, the upper-case letter of
      `(index - 26).toString(36)` below 62, and `-` above. */
  function Symbol(index: nat): (c: char)
    requires index < 64
    ensures index < 62 <==> IsAlphanumeric(c)
    ensures index >= 62 ==> c == '-'
  {
    if index < 10 then ('0' as int + index) as char
    else if index < 36 then ('a' as int + index - 10) as char
    else if index < 62 then ('A' as int + index - 36) as char
    else '-'
  }

  /** The index of an alphanumeric character, the inverse of `Symbol`. */
  function IndexOf(c: char): (index: nat)
    requires IsAlphanumeric(c)
    ensures index < 62 && Symbol(index) == c
  {
    if '0' <= c <= '9' then c as int - '0' as int
    else if 'a' <= c <= 'z' then c as int - 'a' as int + 10
    else c as int - 'A' as int + 36
  }

  /** Different indexes below 62 give different characters. */
  lemma SymbolIndexRoundTrip(index: nat)
    requires index < 62
    ensures IndexOf(Symbol(index)) == index
  {
  }

  /** The index a byte gives under a mask. */
  function Masked(b: bv8, mask: bv8): (index: nat)
    requires mask <= 63
    ensures index < 64
  {
    MaskBound(b, mask);
    (b & mask) as int
  }

  lemma MaskBound(b: bv8, mask: bv8)
    requires mask <= 63
    ensures b & mask <= 63
  {
  }

  /** The id for `bytes` under `mask`, in the order the countdown loop appends. */
  function IdFrom(bytes: seq<bv8>, mask: bv8): (id: string)
    requires mask <= 63
    ensures |id| == |bytes|
  {
    if |bytes| == 0 then ""
    else [Symbol(Masked(bytes[|bytes| - 1], mask))] + IdFrom(bytes[..|bytes| - 1], mask)
  }

  /** Character `k` of the id comes from the byte `k` places from the end. */
  lemma {:induction false} IdFromAt(bytes: seq<bv8>, mask: bv8, k: nat)
    requires mask <= 63 && k < |bytes|
    ensures IdFrom(bytes, mask)[k] == Symbol(Masked(bytes[|bytes| - 1 - k], mask))
  {
    if k > 0 {
      IdFromAt(bytes[..|bytes| - 1], mask, k - 1);
    }
  }

  /** The generator loop: count `size` down and append one character per byte. */
  method Generate(bytes: seq<bv8>, mask: bv8) returns (id: string)
    requires mask <= 63
    ensures |id| == |bytes|
    ensures forall k :: 0 <= k < |id| ==> id[k] == Symbol(Masked(bytes[|bytes| - 1 - k], mask))
  {
    id := "";
    var size := |bytes|;
    while size > 0
      invariant 0 <= size <= |bytes|
      invariant |id| == |bytes| - size
      invariant forall k :: 0 <= k < |id| ==> id[k] == Symbol(Masked(bytes[|bytes| - 1 - k], mask))
    {
      size := size - 1;
      var index := Masked(bytes[size], mask);
      var c: char;
      if index < 36 {
        c := if index < 10 then ('0' as int + index) as char else ('a' as int + index - 10) as char;
      } else if index < 62 {
        c := ('A' as int + index - 36) as char;
      } else {
        c := '-';
      }
      id := id + [c];
    }
  }

  /** The loop and the recursive definition agree. */
  lemma GenerateIsIdFrom(bytes: seq<bv8>, mask: bv8, id: string)
    requires mask <= 63 && |id| == |bytes|
    requires forall k :: 0 <= k < |id| ==> id[k] == Symbol(Masked(bytes[|bytes| - 1 - k], mask))
    ensures id == IdFrom(bytes, mask)
  {
    forall k | 0 <= k < |id| ensures id[k] == IdFrom(bytes, mask)[k] {
      IdFromAt(bytes, mask, k);
    }
  }

  /** `nanoid` as written: the mask 61 clears bit 1 of every index. */
  function WrittenId(bytes: seq<bv8>): (id: string)
    ensures |id| == |bytes|
  {
    IdFrom(bytes, WrittenMask)
  }

  /** `nanoid` with the mask 63. */
  function FullId(bytes: seq<bv8>): (id: string)
    ensures |id| == |bytes|
  {
    IdFrom(bytes, FullMask)
  }

  /** Under the written mask an index never has bit 1 set and never reaches 62. */
  lemma WrittenIndexes(b: bv8)
    ensures Masked(b, WrittenMask) < 62
    ensures Masked(b, WrittenMask) % 4 < 2
  {
    assert b & 61 <= 61 && (b & 61) & 2 == 0;
    assert ((b & 61) as int) % 4 == ((b & 61) & 3) as int;
  }

  /** The written id is alphanumeric and never holds `2`, `a` or `C`: the mask keeps
      only the 32 indexes whose second bit is clear, so the choice for `-` is dead and
      30 of the 62 alphanumerics never appear. */
  lemma {:induction false} WrittenMissesSymbols(bytes: seq<bv8>)
    ensures forall k :: 0 <= k < |bytes| ==> IsAlphanumeric(WrittenId(bytes)[k])
    ensures '2' !in WrittenId(bytes) && 'a' !in WrittenId(bytes) && 'C' !in WrittenId(bytes)
  {
    var id := WrittenId(bytes);
    forall k | 0 <= k < |bytes|
      ensures IsAlphanumeric(id[k]) && id[k] != '2' && id[k] != 'a' && id[k] != 'C'
    {
      IdFromAt(bytes, WrittenMask, k);
      WrittenIndexes(bytes[|bytes| - 1 - k]);
    }
  }

  /** A concrete case: the byte 2 gives `0`, not `2`. */
  lemma WrittenByteTwo()
    ensures WrittenId([2]) == "0"
  {
    assert (2 as bv8) & 61 == 0;
  }

  /** With the mask 63 every alphanumeric character is reached by some byte, and `-`
      by the bytes whose index is 62 or 63. */
  lemma FullReachesAll(c: char)
    requires IsAlphanumeric(c) || c == '-'
    ensures exists b: bv8 :: FullId([b]) == [c]
  {
    var index := if c == '-' then 62 else IndexOf(c);
    var b := index as bv8;
    FullMaskKeeps(b);
    assert Masked(b, FullMask) == index;
    IdFromAt([b], FullMask, 0);
  }

  lemma FullMaskKeeps(b: bv8)
    requires b <= 63
    ensures b & FullMask == b
  {
  }

  /** With the mask 63 the id keeps every character inside the URL-safe alphabet. */
  lemma {:induction false} FullIdSymbols(bytes: seq<bv8>)
    ensures forall k :: 0 <= k < |bytes| ==> IsAlphanumeric(FullId(bytes)[k]) || FullId(bytes)[k] == '-'
  {
    forall k | 0 <= k < |bytes| ensures IsAlphanumeric(FullId(bytes)[k]) || FullId(bytes)[k] == '-' {
      IdFromAt(bytes, FullMask, k);
    }
  }
}
