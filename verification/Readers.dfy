/** Sources of bytes, delivered in whatever pieces they choose. */
module Readers {
  import opened Bytes

  datatype ReadErr = NoErr | Eof | Broken
  datatype Fate = Fate(n: nat, err: ReadErr)

  // Any reader: each call may deliver fewer bytes than asked, none, or an error.
  class Reader {
    var rest: seq<byte>
    var script: seq<Fate>

    constructor (data: seq<byte>, script: seq<Fate>)
      ensures rest == data && this.script == script
    {
      rest, this.script := data, script;
    }

    method Read(cap: nat) returns (data: seq<byte>, err: ReadErr)
      modifies this
      ensures old(rest) == data + rest && |data| <= cap
      ensures err.Eof? ==> rest == []
      ensures old(script) != [] ==> script == old(script)[1..] && |data| <= old(script)[0].n
      ensures err.Broken? <==> old(script) != [] && old(script)[0].err.Broken?
      // With nothing left to go wrong it delivers what it has.
      ensures old(script) == [] ==> script == [] && |data| == (if |old(rest)| < cap then |old(rest)| else cap)
    {
      var fate := if script == [] then Fate(cap, NoErr) else script[0];
      script := if script == [] then [] else script[1..];
      var n := if fate.n < cap then fate.n else cap;
      n := if n < |rest| then n else |rest|;
      data, rest := rest[..n], rest[n..];
      err := if fate.err.Broken? then Broken else if rest == [] && (data == [] || fate.err.Eof?) then Eof else NoErr;
    }
  }
}
