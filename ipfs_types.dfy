/**
 * The question and batch records shared by the batch source, the scorer and
 * the mock data table (the `IPFSQuestion` and `IPFSBatch` interfaces).
 */
module QuizTypes {

  datatype Difficulty = Easy | Medium | Hard

  /** One translation prompt with its reference answer. */
  datatype Question = Question(
    id: int,
    sourceText: string,
    correctTranslation: string,
    targetLanguage: string,
    difficulty: Difficulty)

  /** A batch of questions as served by the batch source or the mock table. */
  datatype Batch = Batch(
    batchId: int,
    questions: seq<Question>,
    createdAt: string,
    difficulty: Difficulty,
    languagePair: string)
}
