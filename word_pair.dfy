/** The `WordPair` record: one German–Ukrainian translation unit. */
module WordPairs {
  import opened Wrappers

  /** Stands for a `UUID`: an opaque identifier that is only ever compared
      for equality. */
  datatype Id = Id(raw: nat)

  /** `id` is a `let` in the source, so a pair keeps its identifier for its
      whole life; a datatype value cannot change at all. */
  datatype WordPair = WordPair(id: Id, german: string, ukrainian: string)

  /** `WordPair(id:german:ukrainian:)`. The `id` argument defaults to a
      newly generated `UUID()`, which the caller supplies here as `generated`.
      Both texts are stored verbatim: the initialiser neither trims nor
      validates them. */
  function NewWordPair(id: Option<Id>, german: string, ukrainian: string, generated: Id): (p: WordPair)
    ensures p.german == german && p.ukrainian == ukrainian
    ensures id.Some? ==> p.id == id.value
    ensures id.None? ==> p.id == generated
  {
    WordPair(if id.Some? then id.value else generated, german, ukrainian)
  }

  /** Synthesised `Equatable`: two pairs are equal exactly when their ids
      and both texts are. */
  lemma WordPairEquality(p: WordPair, q: WordPair)
    ensures p == q <==> (p.id == q.id && p.german == q.german && p.ukrainian == q.ukrainian)
  {
  }
}
