/**
 * The mock batch table used when no IPFS gateway is wanted: three batches of
 * five English to Spanish questions, and `getMockBatch`, which looks a batch
 * up by its id with `Array.prototype.find`.
 *
 * Every entry's `createdAt` is the clock reading taken when the table is
 * loaded; that reading is the parameter `loadedAt`.
 */
module MockQuizData {
  import opened JsRuntime
  import opened QuizTypes

  const MockPair: string := "en-es"

  function M(id: int, source: string, translation: string, difficulty: Difficulty): Question
  {
    Question(id, source, translation, "es", difficulty)
  }

  /** `MOCK_QUIZ_BATCHES`. */
  function MockBatches(loadedAt: string): (bs: seq<Batch>)
    ensures |bs| == 3
  {
    [ Batch(1,
        [ M(1, "Hello", "Hola", Easy),
          M(2, "Goodbye", "Adiós", Easy),
          M(3, "Thank you", "Gracias", Easy),
          M(4, "Good morning", "Buenos días", Easy),
          M(5, "How are you?", "¿Cómo estás?", Easy) ],
        loadedAt, Easy, MockPair),
      Batch(2,
        [ M(1, "I love you", "Te amo", Easy),
          M(2, "What is your name?", "¿Cómo te llamas?", Easy),
          M(3, "Please", "Por favor", Easy),
          M(4, "Yes", "Sí", Easy),
          M(5, "No", "No", Easy) ],
        loadedAt, Easy, MockPair),
      Batch(3,
        [ M(1, "Where is the bathroom?", "¿Dónde está el baño?", Medium),
          M(2, "I don't understand", "No entiendo", Medium),
          M(3, "How much does it cost?", "¿Cuánto cuesta?", Medium),
          M(4, "Can you help me?", "¿Puedes ayudarme?", Medium),
          M(5, "I am hungry", "Tengo hambre", Medium) ],
        loadedAt, Medium, MockPair) ]
  }

  /**
   * `bs.find(b => b.batchId === batchId)`: the first batch with that id, or
   * nothing when no batch has it.
   */
  function Find(bs: seq<Batch>, batchId: int): (r: Option<Batch>)
    ensures r.None? <==> forall i :: 0 <= i < |bs| ==> bs[i].batchId != batchId
    ensures r.Some? ==> exists k :: IsFirstMatch(bs, batchId, k) && bs[k] == r.value
  {
    if bs == [] then None
    else if bs[0].batchId == batchId then (assert IsFirstMatch(bs, batchId, 0); Some(bs[0]))
    else
      var r := Find(bs[1..], batchId);
      assert r.Some? ==> exists k :: IsFirstMatch(bs, batchId, k) && bs[k] == r.value by {
        if r.Some? {
          var k :| IsFirstMatch(bs[1..], batchId, k) && bs[1..][k] == r.value;
          assert IsFirstMatch(bs, batchId, k + 1);
        }
      }
      r
  }

  /** Position k holds the first batch with that id. */
  ghost predicate IsFirstMatch(bs: seq<Batch>, batchId: int, k: int)
  {
    && 0 <= k < |bs| && bs[k].batchId == batchId
    && forall j :: 0 <= j < k ==> bs[j].batchId != batchId
  }

  /** `getMockBatch`: the table entry with that id, or `null`. */
  function GetMockBatch(batchId: int, loadedAt: string): (r: Option<Batch>)
    ensures r.Some? ==> r.value.batchId == batchId && r.value in MockBatches(loadedAt)
    ensures r.None? <==> forall i :: 0 <= i < |MockBatches(loadedAt)| ==> MockBatches(loadedAt)[i].batchId != batchId
  {
    Find(MockBatches(loadedAt), batchId)
  }

  /** The table's batch ids are 1, 2 and 3, one per position. */
  lemma MockBatchIds(loadedAt: string)
    ensures forall i :: 0 <= i < 3 ==> MockBatches(loadedAt)[i].batchId == i + 1
  {
  }

  /** The ids are distinct, so `find` has at most one candidate. */
  lemma MockIdsDistinct(loadedAt: string, i: int, j: int)
    requires 0 <= i < 3 && 0 <= j < 3 && i != j
    ensures MockBatches(loadedAt)[i].batchId != MockBatches(loadedAt)[j].batchId
  {
    MockBatchIds(loadedAt);
  }

  /** A batch is found exactly for the ids 1, 2 and 3, and the one found is
      the table entry at position id - 1, which carries that id. */
  lemma GetMockBatchFound(batchId: int, loadedAt: string)
    ensures GetMockBatch(batchId, loadedAt).Some? <==> 1 <= batchId <= 3
    ensures 1 <= batchId <= 3 ==>
      GetMockBatch(batchId, loadedAt) == Some(MockBatches(loadedAt)[batchId - 1])
    ensures GetMockBatch(batchId, loadedAt).Some? ==> GetMockBatch(batchId, loadedAt).value.batchId == batchId
  {
    var bs := MockBatches(loadedAt);
    MockBatchIds(loadedAt);
    if 1 <= batchId <= 3 {
      assert bs[batchId - 1].batchId == batchId;
      var r := GetMockBatch(batchId, loadedAt);
      assert r.Some?;
      var k :| IsFirstMatch(bs, batchId, k) && bs[k] == r.value;
      assert k == batchId - 1;
    }
  }

  /** Every batch of the table holds five questions numbered 1 to 5, all in
      the batch's own difficulty and in Spanish. */
  lemma MockQuestionsShape(loadedAt: string, i: int)
    requires 0 <= i < 3
    ensures var b := MockBatches(loadedAt)[i];
      && |b.questions| == 5
      && b.languagePair == MockPair
      && b.createdAt == loadedAt
      && forall j :: 0 <= j < 5 ==>
           && b.questions[j].id == j + 1
           && b.questions[j].difficulty == b.difficulty
           && b.questions[j].targetLanguage == "es"
  {
  }
}
