/**
 * The batch source adapter of the IPFS quiz hook: `fetchBatch` with its range
 * check, its per-hook cache of batches, the shape check on what the IPFS
 * gateways return, and the deterministic fallback batch used when the
 * gateways fail or return something unusable; `clearCache`;
 * `getRandomBatchId`.
 *
 * The gateway round (four mirrors, ten-second time-outs) is not modelled: its
 * overall result for a content hash is a parameter, a function from the hash
 * to an `IpfsReply`. The clock reading `new Date().toISOString()` is a
 * parameter too.
 */
module BatchSource {
  import opened JsRuntime
  import opened QuizTypes

  /** What the gateway round produced: either every gateway failed, or some
      JSON value arrived, of which only the fields read by `fetchBatch` are
      kept (`questions` is `Some` exactly when it is an array). */
  datatype IpfsReply =
    | AllGatewaysFailed
    | Received(
        questions: Option<seq<Question>>,
        createdAt: Option<string>,
        difficulty: Option<Difficulty>,
        languagePair: Option<string>)

  const DefaultLanguagePair: string := "English → Spanish"
  const RangeError: string := "Batch ID must be between 1 and 10"

  /** The content hash the hook asks the gateways for. */
  function BatchHash(batchId: int): string
  {
    "QmBatchHash" + IntString(batchId)
  }

  /** `value || fallback` on an optional string: absent and "" both give the
      fallback. */
  function OrElse(value: Option<string>, fallback: string): (r: string)
    ensures r == fallback || (value.Some? && r == value.value && r != "")
  {
    if value.Some? && value.value != "" then value.value else fallback
  }

  // ---------------------------------------------------------------------------
  // The fallback generator

  function Q(id: int, source: string, translation: string, difficulty: Difficulty): Question
  {
    Question(id, source, translation, "Spanish", difficulty)
  }

  /** The hard-coded question set for batch 1. */
  function FirstSet(): (qs: seq<Question>)
    ensures |qs| == 5
  {
    [ Q(1, "Hello, how are you?", "Hola, ¿cómo estás?", Easy),
      Q(2, "What is your name?", "¿Cómo te llamas?", Easy),
      Q(3, "Where do you live?", "¿Dónde vives?", Easy),
      Q(4, "I love learning languages", "Me encanta aprender idiomas", Easy),
      Q(5, "Thank you very much", "Muchas gracias", Easy) ]
  }

  /** The hard-coded question set for batch 2. */
  function SecondSet(): (qs: seq<Question>)
    ensures |qs| == 5
  {
    [ Q(6, "The weather is beautiful today", "El clima está hermoso hoy", Medium),
      Q(7, "I would like to order food", "Me gustaría pedir comida", Medium),
      Q(8, "Can you help me please?", "¿Puedes ayudarme por favor?", Medium),
      Q(9, "The book is on the table", "El libro está sobre la mesa", Medium),
      Q(10, "I am learning Spanish", "Estoy aprendiendo español", Medium) ]
  }

  /** The difficulty given to generated batches: easy up to 3, medium up to 7,
      hard beyond. */
  function GeneratedDifficulty(batchId: int): Difficulty
  {
    if batchId <= 3 then Easy else if batchId <= 7 then Medium else Hard
  }

  /** The first question set re-numbered, re-labelled and given a difficulty for
      another batch. */
  function GeneratedSet(batchId: int): (qs: seq<Question>)
    ensures |qs| == 5
  {
    seq(5, i requires 0 <= i < 5 =>
      FirstSet()[i].(
        id := (batchId - 1) * 5 + i + 1,
        sourceText := FirstSet()[i].sourceText + " (Batch " + IntString(batchId) + ")",
        difficulty := GeneratedDifficulty(batchId)))
  }

  /**
   * `generateFallbackQuestions`: always five questions, numbered
   * (b-1)*5+1 .. (b-1)*5+5 for every batch b (the two stored sets follow the
   * same numbering); a generated batch keeps the translations of the first set
   * and takes its difficulty from `GeneratedDifficulty`.
   */
  function FallbackQuestions(batchId: int): (qs: seq<Question>)
    ensures |qs| == 5
    ensures forall i :: 0 <= i < 5 ==> qs[i].id == (batchId - 1) * 5 + i + 1
    ensures batchId != 1 && batchId != 2 ==>
      forall i :: 0 <= i < 5 ==>
        && qs[i].difficulty == GeneratedDifficulty(batchId)
        && qs[i].correctTranslation == FirstSet()[i].correctTranslation
        && qs[i].targetLanguage == "Spanish"
  {
    if batchId == 1 then FirstSet()
    else if batchId == 2 then SecondSet()
    else GeneratedSet(batchId)
  }

  /** Different batches never share a question id. */
  lemma FallbackIdsDisjoint(b1: int, b2: int, i: int, j: int)
    requires b1 != b2 && 0 <= i < 5 && 0 <= j < 5
    ensures FallbackQuestions(b1)[i].id != FallbackQuestions(b2)[j].id
  {
  }

  /** The difficulty-by-id rule holds for every batch except 2, whose stored set is
      medium although the rule would make it easy. */
  lemma FallbackDifficulty(batchId: int, i: int)
    requires 0 <= i < 5
    ensures batchId != 2 ==> FallbackQuestions(batchId)[i].difficulty == GeneratedDifficulty(batchId)
    ensures FallbackQuestions(2)[i].difficulty == Medium != GeneratedDifficulty(2)
  {
  }

  /** The batch built when the gateways give nothing usable. */
  function FallbackBatch(batchId: int, now: string): (b: Batch)
    ensures b.batchId == batchId && |b.questions| == 5
  {
    Batch(batchId, FallbackQuestions(batchId), now, Medium, DefaultLanguagePair)
  }

  /**
   * What a cache miss produces: the reply is accepted exactly when its
   * `questions` field is an array, with the missing metadata defaulted;
   * otherwise the fallback batch is used. Either way the batch carries the
   * requested id.
   */
  function Resolve(batchId: int, reply: IpfsReply, now: string): (b: Batch)
    ensures b.batchId == batchId
    ensures reply.Received? && reply.questions.Some? ==>
      && b.questions == reply.questions.value
      && b.createdAt == OrElse(reply.createdAt, now)
      && b.difficulty == (if reply.difficulty.Some? then reply.difficulty.value else Medium)
      && b.languagePair == OrElse(reply.languagePair, DefaultLanguagePair)
    ensures !(reply.Received? && reply.questions.Some?) ==> b == FallbackBatch(batchId, now)
  {
    if reply.Received? && reply.questions.Some? then
      Batch(
        batchId,
        reply.questions.value,
        OrElse(reply.createdAt, now),
        if reply.difficulty.Some? then reply.difficulty.value else Medium,
        OrElse(reply.languagePair, DefaultLanguagePair))
    else
      FallbackBatch(batchId, now)
  }

  /** Whatever the gateways do, a batch in range resolves to a batch with that
      id, and to a five-question batch unless an array was accepted. */
  lemma ResolveAlwaysSucceeds(batchId: int, reply: IpfsReply, now: string)
    ensures Resolve(batchId, reply, now).batchId == batchId
    ensures reply.AllGatewaysFailed? ==> |Resolve(batchId, reply, now).questions| == 5
  {
  }

  /** `getRandomBatchId`: `Math.floor(Math.random() * 10) + 1`, with the
      random draw in [0, 1) as a parameter. */
  function RandomBatchId(draw: real): (id: int)
    requires 0.0 <= draw < 1.0
    ensures 1 <= id <= 10
  {
    (draw * 10.0).Floor + 1
  }

  /** Different batch ids are asked for under different content hashes. */
  lemma BatchHashInjective(a: int, b: int)
    ensures BatchHash(a) == BatchHash(b) <==> a == b
  {
    if BatchHash(a) == BatchHash(b) {
      assert BatchHash(a)[11..] == IntString(a);
      assert BatchHash(b)[11..] == IntString(b);
      IntStringInjective(a, b);
    }
  }

  /** A map keyed by ids in 1..10 has at most ten entries. */
  lemma CacheBound(m: map<int, Batch>)
    ensures (forall k :: k in m ==> 1 <= k <= 10) ==> |m| <= 10
  {
    if forall k :: k in m ==> 1 <= k <= 10 {
      KeysInRange(m.Keys, 10);
      assert |m| == |m.Keys|;
    }
  }

  /** At most n distinct ids lie in 1..n. */
  lemma {:induction false} KeysInRange(keys: set<int>, n: nat)
    requires forall k :: k in keys ==> 1 <= k <= n
    ensures |keys| <= n
  {
    if n == 0 {
      assert forall k :: k !in keys;
      assert keys == {};
    } else {
      KeysInRange(keys - {n}, n - 1);
    }
  }

  // ---------------------------------------------------------------------------
  // The hook's state

  /** The cache of the hook (`cachedBatches`) and its `error` state. */
  class BatchCache {
    var cache: map<int, Batch>
    var error: Option<string>

    /** Only ids in 1..10 are cached, each under its own id. */
    ghost predicate Valid()
      reads this
    {
      forall k :: k in cache ==> 1 <= k <= 10 && cache[k].batchId == k
    }

    constructor ()
      ensures Valid() && cache == map[] && error == None
    {
      cache := map[];
      error := None;
    }

    /** The number of cached batches the hook reports: none exactly when the
        cache is empty, and never more than the ten valid ids. */
    function CachedCount(): (n: nat)
      reads this
      ensures n == 0 <==> cache == map[]
      ensures Valid() ==> n <= 10
    {
      CacheBound(cache);
      |cache|
    }

    /**
     * `fetchBatch`: an id outside 1..10 is rejected before the cache is
     * consulted; a cached id is answered from the cache with no fetch; any
     * other id is fetched under its content hash, resolved, and cached.
     */
    method FetchBatch(batchId: int, fetchFromIpfs: string -> IpfsReply, now: string)
      returns (r: Outcome<Batch>)
      requires Valid()
      modifies this
      ensures Valid()
      ensures !(1 <= batchId <= 10) ==> r == Throws(RangeError) && unchanged(this)
      ensures 1 <= batchId <= 10 && batchId in old(cache) ==>
        r == Returns(old(cache)[batchId]) && unchanged(this)
      ensures 1 <= batchId <= 10 && batchId !in old(cache) ==>
        && r == Returns(Resolve(batchId, fetchFromIpfs(BatchHash(batchId)), now))
        && cache == old(cache)[batchId := r.value]
        && error == None
      ensures r.Returns? ==> r.value.batchId == batchId
    {
      if batchId < 1 || batchId > 10 {
        return Throws(RangeError);
      }
      if batchId in cache {
        return Returns(cache[batchId]);
      }
      error := None;
      var reply := fetchFromIpfs(BatchHash(batchId));
      var batch := Resolve(batchId, reply, now);
      cache := cache[batchId := batch];
      return Returns(batch);
    }

    /** `clearCache`: forget every cached batch. */
    method ClearCache()
      requires Valid()
      modifies this
      ensures Valid() && cache == map[] && error == old(error)
    {
      cache := map[];
    }
  }

  /** Asking twice for the same id gives the same batch, and the second
      answer comes from the cache whatever the gateways do by then. */
  method FetchTwice(source: BatchCache, batchId: int, first: string -> IpfsReply,
                    second: string -> IpfsReply, now1: string, now2: string)
    returns (r1: Outcome<Batch>, r2: Outcome<Batch>)
    requires source.Valid()
    modifies source
    ensures r1 == r2
    ensures 1 <= batchId <= 10 <==> r1.Returns?
  {
    r1 := source.FetchBatch(batchId, first, now1);
    r2 := source.FetchBatch(batchId, second, now2);
  }
}
