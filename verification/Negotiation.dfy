/** Version and capability negotiation, and the client's check of what the server selected. */
module Negotiation {
  import opened Common
  import opened Bits
  import opened ProtocolTypes

  const RELIABLE_STREAM: nat := 1

  datatype NegotiationError =
    | InvalidVersionRange | InvalidCapabilityAdvertisement | NoCommonVersion
    | UnsupportedRequiredCapability | MissingReliableStream | InvalidSelection

  predicate Contains(set_: nat, subset_: nat) { And(set_, subset_) == subset_ }

  function Offered(c: CapabilityAdvertisement): nat { Or(c.required, c.optional) }

  function NewOffer(versions: VersionRange, c: CapabilityAdvertisement, nonce: NonZeroId16)
    : Result<NegotiationOffer, NegotiationError>
  {
    if !versions.IsValid() then Err(InvalidVersionRange)
    else if And(c.required, c.optional) != 0 then Err(InvalidCapabilityAdvertisement)
    else if !Contains(c.required, RELIABLE_STREAM) then Err(MissingReliableStream)
    else Ok(NegotiationOffer(versions, c, nonce))
  }

  function Negotiate(offer: NegotiationOffer, versions: VersionRange, capabilities: u64, serverNonce: NonZeroId16)
    : Result<NegotiatedParameters, NegotiationError>
  {
    var version := offer.versions.Negotiate(versions);
    var enabled := And(Offered(offer.capabilities), capabilities);
    AndIsSmaller(Offered(offer.capabilities), capabilities);
    if version.None? then Err(NoCommonVersion)
    else if !Contains(capabilities, offer.capabilities.required) then Err(UnsupportedRequiredCapability)
    else if !Contains(enabled, RELIABLE_STREAM) then Err(MissingReliableStream)
    else Ok(NegotiatedParameters(version.value, enabled, offer.clientNonce, serverNonce))
  }

  predicate Validates(p: NegotiatedParameters, offer: NegotiationOffer) {
    && offer.versions.IsValid()
    && offer.versions.Includes(p.version)
    && Contains(Offered(offer.capabilities), p.capabilities)
    && Contains(p.capabilities, offer.capabilities.required)
    && Contains(p.capabilities, RELIABLE_STREAM)
    && p.clientNonce == offer.clientNonce
  }

  /** An offer can be made exactly when no capability is on both lists and bit 0 is required. */
  lemma OffersAreConsistent(versions: VersionRange, c: CapabilityAdvertisement, nonce: NonZeroId16)
    ensures NewOffer(versions, c, nonce).Ok? <==>
      && versions.IsValid()
      && !(exists i: nat :: HasBit(c.required, i) && HasBit(c.optional, i))
      && HasBit(c.required, 0)
  {
    AndMeansSharedBit(c.required, c.optional);
    BitZeroIsOne(c.required);
  }

  lemma BitZeroIsOne(a: nat)
    ensures Contains(a, RELIABLE_STREAM) <==> HasBit(a, 0)
  {
    assert And(a / 2, 0) == 0;
    if a > 0 {
      assert And(a, 1) == Low(a % 2 == 1) + 2 * And(a / 2, 0);
    }
  }

  /** The version agreed is the newest both sides have. */
  lemma NewestCommonVersion(a: VersionRange, b: VersionRange, v: u16)
    ensures a.Negotiate(b) == Some(v) <==>
      && a.Includes(v) && b.Includes(v)
      && forall w: u16 | a.Includes(w) && b.Includes(w) :: w <= v
  {
    var high := if a.maximum < b.maximum then a.maximum else b.maximum;
    if a.Includes(v) && b.Includes(v) {
      assert a.Includes(high) && b.Includes(high);
    }
  }

  lemma AndKeepsSubset(a: nat, b: nat, c: nat)
    requires Contains(a, c) && Contains(b, c)
    ensures Contains(And(a, b), c)
  {
    ContainsMeansAllBits(a, c);
    ContainsMeansAllBits(b, c);
    ContainsMeansAllBits(And(a, b), c);
    forall i: nat | HasBit(c, i) ensures HasBit(And(a, b), i) { AndBits(a, b, i); }
  }

  lemma AndIsContained(a: nat, b: nat)
    ensures Contains(a, And(a, b))
  {
    ContainsMeansAllBits(a, And(a, b));
    forall i: nat | HasBit(And(a, b), i) ensures HasBit(a, i) { AndBits(a, b, i); }
  }

  lemma RequiredIsOffered(c: CapabilityAdvertisement)
    ensures Contains(Offered(c), c.required)
  {
    ContainsMeansAllBits(Offered(c), c.required);
    forall i: nat | HasBit(c.required, i) ensures HasBit(Offered(c), i) { OrBits(c.required, c.optional, i); }
  }

  /**
   * The client accepts a selection exactly when some server, negotiating by
   * the rules on this very offer, could have made it.
   */
  lemma ValidationIsExact(p: NegotiatedParameters, offer: NegotiationOffer)
    ensures Validates(p, offer) <==>
      exists versions: VersionRange, capabilities: u64 ::
        Negotiate(offer, versions, capabilities, p.serverNonce) == Ok(p)
  {
    hide And, Or;
    if Validates(p, offer) {
      var only := VersionRange(p.version, p.version);
      assert offer.versions.Negotiate(only) == Some(p.version);
      assert Negotiate(offer, only, p.capabilities, p.serverNonce) == Ok(p);
    }
    if versions: VersionRange, capabilities: u64 :| Negotiate(offer, versions, capabilities, p.serverNonce) == Ok(p) {
      var offered := Offered(offer.capabilities);
      AndIsContained(offered, capabilities);
      RequiredIsOffered(offer.capabilities);
      AndKeepsSubset(offered, capabilities, offer.capabilities.required);
      NewestCommonVersion(offer.versions, versions, p.version);
    }
  }

  /** Every capability both sides offered is enabled, and no other. */
  lemma EnabledIsCommon(offer: NegotiationOffer, versions: VersionRange, capabilities: u64, nonce: NonZeroId16, i: nat)
    requires Negotiate(offer, versions, capabilities, nonce).Ok?
    ensures HasBit(Negotiate(offer, versions, capabilities, nonce).value.capabilities, i)
      <==> HasBit(capabilities, i)
           && (HasBit(offer.capabilities.required, i) || HasBit(offer.capabilities.optional, i))
  {
    AndBits(Offered(offer.capabilities), capabilities, i);
    OrBits(offer.capabilities.required, offer.capabilities.optional, i);
  }

  /** When a server's negotiation succeeds, and what it is refused for otherwise. */
  lemma NegotiatingAnswers(offer: NegotiationOffer, versions: VersionRange, capabilities: u64, nonce: NonZeroId16)
    ensures var r := Negotiate(offer, versions, capabilities, nonce);
      var shared := exists v: u16 :: offer.versions.Includes(v) && versions.Includes(v);
      var able := HasAllBitsOf(capabilities, offer.capabilities.required);
      var reliable := HasBit(capabilities, 0)
        && (HasBit(offer.capabilities.required, 0) || HasBit(offer.capabilities.optional, 0));
      && (r.Ok? <==> shared && able && reliable)
      && (r == Err(NoCommonVersion) <==> !shared)
      && (r == Err(UnsupportedRequiredCapability) <==> shared && !able)
      && (r == Err(MissingReliableStream) <==> shared && able && !reliable)
      && (r.Ok? ==> r.value.clientNonce == offer.clientNonce && r.value.serverNonce == nonce)
  {
    hide And, Or;
    SharedVersion(offer.versions, versions);
    ContainsMeansAllBits(capabilities, offer.capabilities.required);
    var enabled := And(Offered(offer.capabilities), capabilities);
    BitZeroIsOne(enabled);
    AndBits(Offered(offer.capabilities), capabilities, 0);
    OrBits(offer.capabilities.required, offer.capabilities.optional, 0);
  }

  lemma SharedVersion(a: VersionRange, b: VersionRange)
    ensures a.Negotiate(b).Some? <==> exists v: u16 :: a.Includes(v) && b.Includes(v)
  {
    if a.Negotiate(b).Some? {
      NewestCommonVersion(a, b, a.Negotiate(b).value);
    }
    if v: u16 :| a.Includes(v) && b.Includes(v) {
      assert a.IsValid() && b.IsValid();
    }
  }
}
