/**
 * The admin's record of where one token may go: its validation, the account it is written to,
 * and the addresses the bridge code compares.
 */
module BridgeRoutes {
  import opened Outcome
  import opened Bytes

  /** An address. Derived ones are injective in the program and the seeds they come from. */
  datatype Key =
    | Plain(bytes: Pubkey)
    | Program(name: string)
    | Derived(program: Key, seeds: seq<Seed>)

  datatype Seed = Text(text: string) | OfKey(key: Key) | Raw(bytes: Bytes)

  const LENDMIRROR := Program("LendMirror")
  const ASSOCIATED_TOKEN := Program("AssociatedToken")

  const DEFAULT_KEY := Plain(Zeros(32))

  /** The empty address that owns a wrapper's token accounts. */
  function WrapperAuthority(wrapper: Key): Key {
    Derived(LENDMIRROR, [Text("LendMirrorWrapperAuthV1"), OfKey(wrapper)])
  }

  /** The associated token account of an owner and a mint. */
  function TokenAccountOf(owner: Key, tokenProgram: Key, mint: Key): Key {
    Derived(ASSOCIATED_TOKEN, [OfKey(owner), OfKey(tokenProgram), OfKey(mint)])
  }

  const PROVIDER_CCTP: u8 := 1
  const PROVIDER_CCIP: u8 := 2
  const PROVIDER_LZ_OFT: u8 := 3

  /** What an admin asks for, and what a route holds. */
  datatype RouteTerms = RouteTerms(
    mint: Key,
    dstChainId: u64,
    provider: u8,
    providerProgram: Key,
    providerAux: Key,
    receiver: Pubkey,
    destinationCaller: Pubkey,
    domainOrSelector: u64,
    gasLimit: u64,
    enabled: bool,
    maxAmountPerTx: u64
  )

  /** The checks in the order the program makes them. */
  function CheckTerms(p: RouteTerms): Result<()> {
    var _ :- Require(p.provider == PROVIDER_CCTP || p.provider == PROVIDER_CCIP || p.provider == PROVIDER_LZ_OFT,
                     WrongProvider);
    var _ :- Require(p.providerAux == DEFAULT_KEY, InvalidBridgeAccount);
    var _ :- Require(p.provider == PROVIDER_LZ_OFT ==> 1 <= p.gasLimit <= 63, InvalidBridgeAccount);
    var _ :- Require(p.receiver != Zeros(32), InvalidBridgeAccount);
    var _ :- Require(p.receiver[..12] == Zeros(12), InvalidBridgeAccount);
    Require(p.provider == PROVIDER_CCTP || p.provider == PROVIDER_LZ_OFT ==> p.domainOrSelector < 0x1_0000_0000,
            InvalidBridgeAccount)
  }

  /** A route account before the admin's first write. */
  const UNWRITTEN := RouteTerms(DEFAULT_KEY, 0, 0, DEFAULT_KEY, DEFAULT_KEY, Zeros(32), Zeros(32), 0, 0, false, 0)

  /** What one call of the admin's instruction leaves in the account. */
  function Updated(before: RouteTerms, p: RouteTerms): RouteTerms {
    if CheckTerms(p).Ok? then p else before
  }

  /** What any number of calls leave in it. */
  function Stored(history: seq<RouteTerms>): RouteTerms {
    if history == [] then UNWRITTEN else Updated(Stored(history[..|history| - 1]), history[|history| - 1])
  }

  /** The route account. */
  class BridgeRoute {
    var mint: Key
    var dstChainId: u64
    var provider: u8
    var providerProgram: Key
    var providerAux: Key
    var receiver: Pubkey
    var destinationCaller: Pubkey
    var domainOrSelector: u64
    var gasLimit: u64
    var enabled: bool
    var maxAmountPerTx: u64
    var bump: u8

    /** An account fresh from `init`: all bytes zero. */
    constructor ()
      ensures Terms() == UNWRITTEN
      ensures bump == 0
    {
      mint, dstChainId, provider := DEFAULT_KEY, 0, 0;
      providerProgram, providerAux := DEFAULT_KEY, DEFAULT_KEY;
      receiver, destinationCaller := Zeros(32), Zeros(32);
      domainOrSelector, gasLimit, enabled, maxAmountPerTx, bump := 0, 0, false, 0, 0;
    }

    function Terms(): RouteTerms
      reads this
    {
      RouteTerms(mint, dstChainId, provider, providerProgram, providerAux, receiver, destinationCaller,
                 domainOrSelector, gasLimit, enabled, maxAmountPerTx)
    }

    method SetTerms(p: RouteTerms, canonicalBump: u8) returns (r: Result<()>)
      modifies this
      ensures r == CheckTerms(p)
      ensures Terms() == Updated(old(Terms()), p)
      ensures bump == if r.Ok? then canonicalBump else old(bump)
    {
      var _ :- CheckTerms(p);
      mint := p.mint;
      dstChainId := p.dstChainId;
      provider := p.provider;
      providerProgram := p.providerProgram;
      providerAux := p.providerAux;
      receiver := p.receiver;
      destinationCaller := p.destinationCaller;
      domainOrSelector := p.domainOrSelector;
      gasLimit := p.gasLimit;
      enabled := p.enabled;
      maxAmountPerTx := p.maxAmountPerTx;
      bump := canonicalBump;
      return Ok(());
    }
  }

  /** A nonzero twenty-byte address, right-aligned in thirty-two. */
  ghost predicate IsEvmReceiver(receiver: Pubkey) {
    (forall i :: 0 <= i < 12 ==> receiver[i] == 0) && exists i :: 12 <= i < 32 && receiver[i] != 0
  }

  /** What the rest of the bridge code relies on: a real receiver, and nothing truncates. */
  ghost predicate Usable(p: RouteTerms) {
    && IsEvmReceiver(p.receiver)
    && (p.provider == PROVIDER_LZ_OFT ==> p.domainOrSelector < 0x1_0000_0000 && 0 < p.gasLimit < 64)
    && p.provider in {PROVIDER_CCTP, PROVIDER_CCIP, PROVIDER_LZ_OFT}
  }

  lemma ZeroIff(s: Bytes)
    ensures s == Zeros(|s|) <==> forall i :: 0 <= i < |s| ==> s[i] == 0
  {
  }

  /** A receiver that passes both checks has a nonzero byte among the last twenty. */
  lemma TermsUsable(p: RouteTerms)
    requires CheckTerms(p).Ok?
    ensures Usable(p)
  {
    forall i | 0 <= i < 12
      ensures p.receiver[i] == 0
    {
      assert p.receiver[i] == p.receiver[..12][i];
    }
    ZeroIff(p.receiver);
  }

  /** What the setter accepts, exactly, and which error anything else gets. */
  lemma TermsChecks(p: RouteTerms)
    ensures CheckTerms(p)
         == if p.provider != 1 && p.provider != 2 && p.provider != 3 then Err(WrongProvider)
            else if p.providerAux == Plain(Zeros(32)) && IsEvmReceiver(p.receiver)
                    && (p.provider == 3 ==> 1 <= p.gasLimit <= 63)
                    && (p.provider != 2 ==> p.domainOrSelector < 0x1_0000_0000) then Ok(())
            else Err(InvalidBridgeAccount)
  {
    ZeroIff(p.receiver);
    ZeroIff(p.receiver[..12]);
    assert forall i :: 0 <= i < 12 ==> p.receiver[..12][i] == p.receiver[i];
  }

  /** Whatever the admin tries, in any order: a route that is switched on is usable. */
  lemma {:induction false} StoredIsUsable(history: seq<RouteTerms>)
    ensures Stored(history).enabled ==> Usable(Stored(history))
    decreases |history|
  {
    if history != [] {
      var p := history[|history| - 1];
      if CheckTerms(p).Ok? {
        TermsUsable(p);
      }
      StoredIsUsable(history[..|history| - 1]);
    }
  }
}
