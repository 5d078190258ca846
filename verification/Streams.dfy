/** `std::istream` over a finite file held in memory, as far as `restore` uses it:
    section 27.7.2 of ISO C++11. */
module Streams {
  import opened Bytes

  const NEWLINE: Byte := 10

  class InStream {
    const data: seq<Byte>
    var pos: nat
    var eofbit: bool
    var failbit: bool

    predicate Valid()
      reads this
    {
      pos <= |data|
    }

    predicate Good()
      reads this
    {
      !eofbit && !failbit
    }

    constructor (data: seq<Byte>)
      ensures this.data == data && pos == 0 && Valid() && Good()
    {
      this.data := data;
      pos, eofbit, failbit := 0, false, false;
    }

    /** Unformatted `read`: stores nothing once the stream is not good; a short read
        stores what there is and sets eof and fail. */
    method Read(n: nat) returns (got: seq<Byte>)
      requires Valid()
      modifies this
      ensures Valid()
      ensures !old(Good()) ==> got == [] && pos == old(pos) && failbit && eofbit == old(eofbit)
      ensures old(Good()) && n <= |data| - old(pos) ==>
                pos == old(pos) + n && got == data[old(pos)..pos] && Good()
      ensures old(Good()) && n > |data| - old(pos) ==>
                got == data[old(pos)..] && pos == |data| && eofbit && failbit
    {
      if !Good() {
        failbit := true;
        return [];
      }
      if n <= |data| - pos {
        got := data[pos..pos + n];
        pos := pos + n;
      } else {
        got := data[pos..];
        pos := |data|;
        eofbit, failbit := true, true;
      }
    }

    /** `std::getline`: extracts and drops the newline; reaching the end sets eof, and
        fail too if nothing was extracted. */
    method GetLine() returns (ok: bool, line: seq<Byte>)
      requires Valid()
      modifies this
      ensures Valid() && (ok <==> !failbit)
      ensures ok <==> old(Good()) && old(pos) < |data|
      ensures ok ==> line == UpTo(data[old(pos)..], NEWLINE)
      ensures ok && !eofbit ==> pos == old(pos) + |line| + 1
      ensures ok && eofbit ==> pos == |data|
      ensures ok ==> (eofbit <==> line == data[old(pos)..])
    {
      if !Good() {
        failbit := true;
        return false, [];
      }
      line := UpTo(data[pos..], NEWLINE);
      if |line| < |data| - pos {
        pos := pos + |line| + 1;
      } else {
        eofbit := true;
        failbit := pos == |data|;
        pos := |data|;
      }
      ok := !failbit;
    }
  }
}
