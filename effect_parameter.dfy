/**
 * The audio renderer's effect input parameter, version 2: the fields the
 * IEffectInParameter interface exposes, and the channel-count check.
 */
module EffectParameter {
  import opened Common

  /** The fields of EffectInParameterVersion2 that carry meaning; the effect type is an enum defined elsewhere. */
  datatype EffectInParameterVersion2 = EffectInParameterVersion2(
    effectType: int,
    isNew: bool,
    isEnabled: bool,
    mixId: int32,
    bufferBase: uint64,
    bufferSize: uint64,
    processingOrder: uint32,
    specificData: seq<byte>)

  /** What a reader sees through the IEffectInParameter interface. */
  datatype EffectInParameterView = EffectInParameterView(
    effectType: int,
    isNew: bool,
    isEnabled: bool,
    mixId: int32,
    bufferBase: uint64,
    bufferSize: uint64,
    processingOrder: uint32)

  /** The seven interface accessors applied to one parameter. */
  function AsEffectInParameter(p: EffectInParameterVersion2): (v: EffectInParameterView)
  {
    EffectInParameterView(p.effectType, p.isNew, p.isEnabled, p.mixId,
                          p.bufferBase, p.bufferSize, p.processingOrder)
  }

  /** The channel counts an effect may be configured with. */
  const ValidChannelCounts: set<int> := {1, 2, 4, 6}

  /** `IsChannelCountValid`: mono, stereo, quadraphonic or 5.1. */
  predicate IsChannelCountValid(channelCount: int32)
  {
    channelCount == 1 || channelCount == 2 || channelCount == 4 || channelCount == 6
  }

  /** Each accessor returns its field unchanged, and two parameters look the same through the interface exactly when all these fields agree. */
  lemma AccessorsForwardFields(p: EffectInParameterVersion2, q: EffectInParameterVersion2)
    ensures var v := AsEffectInParameter(p);
      && v.effectType == p.effectType && v.isNew == p.isNew && v.isEnabled == p.isEnabled
      && v.mixId == p.mixId && v.bufferBase == p.bufferBase && v.bufferSize == p.bufferSize
      && v.processingOrder == p.processingOrder
    ensures AsEffectInParameter(p) == AsEffectInParameter(q) <==> p.(specificData := q.specificData) == q
  {
  }

  /** The valid counts are exactly the members of ValidChannelCounts. */
  lemma ChannelCountValidIff(c: int32)
    ensures IsChannelCountValid(c) <==> c in ValidChannelCounts
  {
  }

  /** Zero, every negative count, 3, 5 and every count above 6 are rejected. */
  lemma ChannelCountRejects(c: int32)
    ensures c <= 0 ==> !IsChannelCountValid(c)
    ensures c == 3 || c == 5 ==> !IsChannelCountValid(c)
    ensures c > 6 ==> !IsChannelCountValid(c)
  {
  }

  /** Exactly four 32-bit counts pass the check. */
  lemma ExactlyFourValidCounts()
    ensures |set c: int32 | IsChannelCountValid(c)| == 4
  {
    var valid := set c: int32 | IsChannelCountValid(c);
    assert valid == {1, 2, 4, 6} by {
      forall c | c in valid ensures c in {1, 2, 4, 6} { }
      assert 1 in valid && 2 in valid && 4 in valid && 6 in valid;
    }
  }
}
