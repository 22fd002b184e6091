/** The client's cached agent token. Times are whole seconds. */
module TokenCache {
  import opened Common

  const LIFETIME := 86400
  const MARGIN := 300

  /** A signed token; only its issue and expiry claims matter here. */
  datatype Token = Token(iat: int, exp: int)

  /** `expiry` is what the client believes about the cached token. */
  datatype Cache = Cache(token: Option<Token>, expiry: int)

  const EMPTY := Cache(None, 0)

  function Mint(now: int): Token {
    Token(now, now + LIFETIME)
  }

  /** One call reads the clock, and minting reads it again, no earlier. */
  datatype Call = Call(now: int, mintNow: int)

  predicate Mints(c: Cache, call: Call) {
    c.token == None || call.now >= c.expiry - MARGIN
  }

  function Next(c: Cache, call: Call): Cache {
    if Mints(c, call) then Cache(Some(Mint(call.mintNow)), call.now + LIFETIME) else c
  }

  /** The client never believes in a token for longer than the token lives. */
  predicate Honest(c: Cache) {
    c.token != None ==> c.expiry <= c.token.value.exp
  }

  class Client {
    var cachedToken: Option<Token>
    var tokenExpiry: int

    constructor ()
      ensures View() == EMPTY
    {
      cachedToken, tokenExpiry := None, 0;
    }

    function View(): Cache
      reads this
    {
      Cache(cachedToken, tokenExpiry)
    }

    method GetToken(call: Call) returns (t: Token)
      requires Honest(View()) && call.now <= call.mintNow
      modifies this
      ensures View() == Next(old(View()), call) && Honest(View())
      ensures View().token == Some(t)
      ensures t.exp - call.now > 300
      ensures if old(View()).token == None || call.now >= old(View()).expiry - 300
              then t.exp == call.mintNow + 86400 && View().expiry == call.now + 86400
              else View() == old(View())
    {
      if cachedToken == None || call.now >= tokenExpiry - MARGIN {
        cachedToken := Some(Mint(call.mintNow));
        tokenExpiry := call.now + LIFETIME;
      }
      t := cachedToken.value;
    }
  }

  // ----- runs -----

  function Run(c: Cache, calls: seq<Call>): Cache
    decreases |calls|
  {
    if calls == [] then c else Run(Next(c, calls[0]), calls[1..])
  }

  /** The tokens returned by the calls of a run. */
  function Returned(c: Cache, calls: seq<Call>): seq<Token>
    decreases |calls|
  {
    if calls == [] then []
    else
      var c' := Next(c, calls[0]);
      (if c'.token == None then [] else [c'.token.value]) + Returned(c', calls[1..])
  }

  /** The clock readings of the calls that minted. */
  function MintTimes(c: Cache, calls: seq<Call>): seq<int>
    decreases |calls|
  {
    if calls == [] then []
    else (if Mints(c, calls[0]) then [calls[0].now] else []) + MintTimes(Next(c, calls[0]), calls[1..])
  }

  /**
   Over every run, even one whose clock jumps about between calls: each call returns a token that
   lives for more than the margin at the moment of its check, and the believed expiry is never beyond
   the real one.
   */
  lemma {:induction false} ReturnedTokensLive(c: Cache, calls: seq<Call>)
    requires Honest(c) && forall i :: 0 <= i < |calls| ==> calls[i].now <= calls[i].mintNow
    ensures |Returned(c, calls)| == |calls|
    ensures forall i :: 0 <= i < |calls| ==> Returned(c, calls)[i].exp - calls[i].now > 300
    ensures Honest(Run(c, calls))
    decreases |calls|
  {
    if calls != [] {
      assert calls[0].now <= calls[0].mintNow;
      ReturnedTokensLive(Next(c, calls[0]), calls[1..]);
    }
  }

  ghost predicate Spaced(m: seq<int>, gap: int) {
    forall i :: 0 < i < |m| ==> m[i] >= m[i - 1] + gap
  }

  /** Each mint comes at least 86100 seconds after the one before, by the client's own clock. */
  lemma {:induction false} MintsAreSpaced(c: Cache, calls: seq<Call>)
    ensures var m := MintTimes(c, calls);
            && Spaced(m, 86100)
            && (m != [] && c.token != None ==> m[0] >= c.expiry - 300)
    decreases |calls|
  {
    if calls != [] {
      MintsAreSpaced(Next(c, calls[0]), calls[1..]);
    }
  }

  lemma {:induction false} SpacedSpan(m: seq<int>, gap: nat)
    requires m != [] && Spaced(m, gap)
    ensures m[|m| - 1] - m[0] >= (|m| - 1) * gap
    decreases |m|
  {
    if |m| > 1 {
      var init := m[..|m| - 1];
      SpacedSpan(init, gap);
      assert (|m| - 1) * gap == (|init| - 1) * gap + gap;
    }
  }

  /** However many calls fall into a span of T seconds, at most 1 + T / 86100 of them mint. */
  lemma MintsAreFew(c: Cache, calls: seq<Call>, start: int, span: nat)
    requires forall i :: 0 <= i < |calls| ==> start <= calls[i].now <= start + span
    ensures |MintTimes(c, calls)| <= 1 + span / 86100
  {
    var m := MintTimes(c, calls);
    MintsAreSpaced(c, calls);
    if m != [] {
      SpacedSpan(m, LIFETIME - MARGIN);
      MintTimesAreCallTimes(c, calls, start, span);
    }
  }

  lemma {:induction false} MintTimesAreCallTimes(c: Cache, calls: seq<Call>, start: int, span: nat)
    requires forall i :: 0 <= i < |calls| ==> start <= calls[i].now <= start + span
    ensures forall i :: 0 <= i < |MintTimes(c, calls)| ==> start <= MintTimes(c, calls)[i] <= start + span
    decreases |calls|
  {
    if calls != [] {
      MintTimesAreCallTimes(Next(c, calls[0]), calls[1..], start, span);
    }
  }
}
