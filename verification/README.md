# BISEN: a verified model of the searchable index

BISEN keeps an encrypted index on a server that must not learn what is in it. A client
numbers documents and counts, per word, the documents that contain it. An enclave turns
every pair of word and counter into a label and an encrypted entry. The storage server maps
labels to entries. A boolean query is tokenised and translated to postfix by the client;
the enclave fetches the postings of its words, evaluates the formula on document lists,
ranks the result and returns the ten best documents.

The project models the whole way from the text of a query to the answer, the stemmer, the
enclave's worker pool and the server's hash, and proves what each is for.

## The main results

- `EndToEnd.SearchFormula`: for every collection of documents, every reachable state of the
  protocol (updates may still be on their way) and every text of the query grammar without
  `!!`, the search is answered exactly when the records of its words have arrived, and then
  with the ten best of exactly the documents that the text asks for. The grammar, what a text
  asks for and what "ten best" means are written out in `QueryText` and `TenBest`, in terms of
  characters, stems, documents and numbers. `EndToEnd.UpdateAndSearch` is a session from the
  start, with no condition on any state.
- `EndToEnd.SearchGrammar`: the same for texts with `!!`: answered unless one stands before the
  first word, for the formula the text is translated to. `EndToEnd.BisenSearch` gives, for any
  text at all, the exact condition of every outcome: an answer, a stop, the exception, and the
  read of an empty stack.
- `IndexRuns.IndexInvariant`, `IndexRuns.CountersAddUp`: over all runs the server holds
  exactly the records that have arrived, none of them overwritten, and the client's counters
  add up to the index plus what is on its way.
- `ShuntingYard.YardIsPostfixExactly`: the output is the postfix form of the very formula that
  was asked if and only if no `!` directly follows a `!`. `DoubleNegation` says what happens
  otherwise: `RefusedExactly`, the output is no postfix form at all if and only if a `!!` stands
  before the first word (`!!a`); else it is that of the formula `Translated`, and
  `MeaningKeptExactly`, for queries that repeat no word, tells which of these formulas mean
  what was asked (`a & !!!b` does, `a & !!b` does not).
- `YardOnAnyTokens.YardOnAnyTokens`: the parser reads the top of an empty stack if and only if the
  first `)` without a partner comes before any operator outside parentheses (`a)`), and throws
  on every other mismatch (`a & b)`).
- `QueryEvaluator.Evaluate`: the stack machine exits without a result exactly on lists that
  are not the postfix form of a formula, and otherwise computes that formula.
- `PorterStemmer.Stemmer.StemInPlace`: the in-place stemmer computes the rewriting rules of
  Porter's paper with the departures the C source marks, inside the word it is handed.
  `PorterLaws` states those rules one by one, for every stem, and that no other ending is changed.
- `WorkerPool.Barrier`, `NeverStuck`, `OwnStepsBounded`: in every interleaving and every
  round each accepted task is called exactly once between entry to and return from
  `thread_do_work`; nothing gets stuck, and the remaining work shrinks with every step.
  `OffersAreCalled`: of k offered tasks exactly as many are called as there are threads for.
  `EveryScheduleReturns`: every schedule of the pool's own steps is finite, and ends with the
  return.
- `Crc32.Tcrc32`, `Crc32.CrcIsRemainder`: the table-driven hash is the remainder of
  division by the CRC-32 polynomial, bit by bit.

## How the files fit together

| file | content |
|---|---|
| Options | values that may be missing |
| Crc32 | the server's hash, the bit-serial register and polynomial long division |
| PorterRules, PorterDispatch, PorterStemmer, PorterLaws | the rules on words, the letter dispatch, the in-place functions, each rule as a law |
| Tokenizer, Query, ShuntingYard, YardOnAnyTokens | from text to tokens to postfix |
| DoubleNegation | what the translation makes of `!!` |
| QueryText, TenBest | the text of a query, what it asks for, and what answers it |
| Formula | formulas, their postfix form and its reader |
| IntVectors, TokenVectors, QueryEvaluator | lists of ids and their set operations, the token vector, evaluation |
| ByteBuffers, Messages, QueryMessages, BulkUpdates, WireFormat | byte formats and cursors, add, search and bulk messages, every field at its place |
| Index, IndexRuns | documents, postings, records; the protocol as a state machine and its invariant |
| SseClient, SseUpdate, SseServer, SseFetch, SseIee, Ranking | the three parties as imperative code |
| Requests, Answers, Meaning, EndToEnd | requests and answers, what a query means, the end-to-end theorems |
| WorkerPool | the enclave's threads as a state machine of atomic steps |

The cryptography is a record of functions: `Sound` says that hashes have 32 bytes, that
the cipher keeps lengths and that decryption undoes encryption; `NoCollisions` that the
records of the collection at hand have different labels. `IndexRuns.AssumptionsAreMet` builds
functions with all these laws for any collection whose records can be numbered in 28 bytes.
The logarithm of the scores is a parameter, and so is the way a double is laid out in eight
bytes and read back. The order in which the inside-out shuffle draws places is left to a method whose
contract allows every choice.

The model follows the code where the code departs from what it is built after: `stem` leaves
words of one or two letters alone and rewrites -bli and -logi, and a query with `!!` is no
error to the parser but translated to something else.

## Model

| member | source | states |
|---|---|---|
| EndToEnd.SearchFormula | Framework/src/Client/bisen_tests.cpp:118-171 | for every text of the grammar without `!!`, starting from its characters: an answer exactly when no record of its words is on its way, then 129 bytes with the ten best of exactly the documents that the text asks for, or all if there are fewer |
| EndToEnd.UpdateAndSearch | Framework/src/Client/bisen_tests.cpp:54-171 | a new client, enclave and server, one bulk update, one query: it is answered, with the ten best of exactly the documents that the text asks for |
| EndToEnd.SearchGrammar | Framework/src/Client/bisen_tests.cpp:118-171 | for every text of the grammar: an answer exactly when no record of its words is on its way and no `!!` stands before its first word; then the ten best of the documents that satisfy the translated formula, and of those that the text asks for where the `!` make up for each other |
| EndToEnd.SearchTree | Framework/src/Client/bisen_tests.cpp:118-171 | the same for every text that is read as the tokens of a query tree |
| TenBest.TopTenAnswers | Search/src/rbisen/SseIee.cpp:617-658 | the ten most relevant matching documents answer the text: min(10, n) of its n documents, each once, by descending score, and none left out scores higher |
| TenBest.SatisfyingIs | Search/src/rbisen/QueryEvaluator.cpp:42-155 | the matching documents are exactly those that the text asks for |
| TenBest.QueryScoreIs | Search/src/rbisen/SseIee.cpp:480-521 | the relevance is the sum, over the words of the text, of frequency times the logarithm of all documents over those with the word |
| EndToEnd.BisenSearch | Framework/src/Client/bisen_tests.cpp:118-171 | for any text: undefined iff an unmatched `)` comes before any outer operator, refused iff the parentheses fail otherwise, answered iff sent, delivered and a postfix form; the answer is right for the formula of that postfix form |
| EndToEnd.SearchSucceedsExactly | Search/src/rbisen/SseIee.cpp:534-621 | in every reachable state the message of a client meets what the enclave relies on (existing ids, no duplicates), and success is characterised exactly |
| EndToEnd.SearchIsExact | Search/src/rbisen/SseIee.cpp:617-633 | the fetched tokens evaluate to exactly the matching documents and the scores are their relevance |
| EndToEnd.MessageParsed | Search/src/rbisen/SseIee.cpp:551-580 | the enclave reads from the client's message the tokens with their posting counts and the number of documents |
| EndToEnd.GrammarQuery | Framework/src/Client/rbisen/QueryParser.cpp:67-120 | a query of the grammar is accepted and keeps its words; its output is a postfix form iff no `!!` stands before the first word, and then that of the translated formula |
| EndToEnd.BisenUpdate | Framework/src/Client/bisen_tests.cpp:54-94 | a bulk update leaves client, enclave and server in step, with every new record at the server once and nothing on its way |
| EndToEnd.UpdateContinuesRun | Framework/src/Client/bisen_tests.cpp:58-90 | an update is a run of the protocol: each document is added, then everything is delivered |
| EndToEnd.UpdateKeepsSane | Framework/src/Client/bisen_tests.cpp:58-90 | the invariant and the bounds hold again after an update of any documents |
| EndToEnd.RunsAreSane | Framework/src/Client/rbisen/SseClient.cpp:67-134 | every state of every run is one that searches can start from |
| EndToEnd.BisenSetup | Search/src/rbisen/SseIee.cpp:148-186 | the parties start in the initial state of the protocol |
| Index.PostingListExact | Framework/src/Client/rbisen/SseClient.cpp:67-134 | the ids on a posting list are strictly increasing, below the document count and exactly those of the documents with the word |
| Index.RecordIsPosting | Framework/src/Client/rbisen/SseClient.cpp:109-132 | the record with counter c of a word carries id and frequency of the c-th document containing it |
| Index.PostingHasRecord | Framework/src/Client/rbisen/SseClient.cpp:109-132 | every posting has its record |
| Index.RecordsDiffer | Framework/src/Client/rbisen/SseClient.cpp:109-132 | no two records share word and counter |
| IndexRuns.IndexInvariant | Framework/src/StorageService/SseServer.cpp:134-138 | in every state of every run the server stores exactly the records that have arrived, each under its own label with its own entry, and the rest is on its way |
| IndexRuns.CountersAddUp | Framework/src/Client/rbisen/SseClient.cpp:110-117 | in every state of every run the sum of the counters is the size of the index plus the records on their way |
| IndexRuns.IndexAfterExact | Framework/src/StorageService/SseServer.cpp:134-138 | storing any number of records never overwrites a label |
| IndexRuns.ClientRecordsAre | Framework/src/Client/rbisen/SseClient.cpp:109-132 | the client's loop makes the records of the document and keeps every counter equal to the length of the posting list |
| IndexRuns.InvKept | Framework/src/Client/rbisen/SseClient.cpp:79-88 | every step of the protocol keeps the invariant |
| IndexRuns.AssumptionsAreMet | Framework/src/Client/rbisen/SseClient.cpp:110-132 | for every collection there are keys, labels and a cipher that meet all assumptions made about them |
| Answers.PostingAnswer | Search/src/rbisen/SseIee.cpp:408-449 | the server's answer for a posting is that posting once its record has arrived and nothing before |
| Answers.WordAnswered | Search/src/rbisen/SseIee.cpp:377-455 | all postings of a word are answered exactly when none of its records is on its way |
| Answers.AnsweredExactly | Search/src/rbisen/SseIee.cpp:377-455 | a query is answered exactly when the records of all its words have arrived |
| Answers.FetchedExactly | Search/src/rbisen/SseIee.cpp:441-446 | what an answered query fetches are the posting lists of its words, ids and frequencies |
| Meaning.EvaluationIsMatching | Search/src/rbisen/QueryEvaluator.cpp:42-155 | evaluating complete posting lists gives the increasing list of exactly the documents that satisfy the formula |
| Meaning.MatchingIs | Search/src/rbisen/QueryEvaluator.cpp:42-155 | the list of matching documents is increasing and contains exactly the ids of satisfying documents |
| Meaning.PostfixMap | Search/src/rbisen/SseIee.cpp:551-585 | exchanging words for fetched lists changes neither what is a postfix form nor its tree |
| Meaning.ScoreIsRelevance | Search/src/rbisen/SseIee.cpp:495-521 | the score of a document is the sum over the word occurrences of the query of frequency times idf |
| Meaning.RelevanceOfWords | Search/src/rbisen/SseIee.cpp:503-514 | the score depends on the words of the query only, not on operators or parentheses |
| SseIee.Enclave.Search | Search/src/rbisen/SseIee.cpp:534-678 | an exit exactly when a posting has no valid answer or the tokens are no postfix form; otherwise the ten best of the evaluated list, scored |
| SseIee.Enclave.GetDocsFromServer | Search/src/rbisen/SseIee.cpp:305-471 | for any order of the requests: success iff all postings are answered, and then every slot has been written exactly once and holds its posting, in batches of 1000 and one of what is left |
| SseIee.Enclave.FetchBatch | Search/src/rbisen/SseIee.cpp:377-455 | one batch writes the slots of its requests, each once and in their order, and keeps those filled before |
| SseIee.Enclave.Rank | Search/src/rbisen/SseIee.cpp:622-658 | the response carries the ten best of the scored documents |
| SseIee.ReadQuery | Search/src/rbisen/SseIee.cpp:550-580 | the parse loop consumes the whole message and returns the tokens, the document count and the number of labels |
| SseFetch.FillRequests | Search/src/rbisen/SseIee.cpp:323-344 | for any draws of the shuffle the array holds every (word, counter) request exactly once |
| SseFetch.PlaceRequest | Search/src/rbisen/SseIee.cpp:333-342 | one step of the inside-out shuffle adds the new request and keeps all others |
| SseFetch.StoreReplies | Search/src/rbisen/SseIee.cpp:410-449 | every entry that passes the label check is written to the slot of its request, once; a failed check means an unanswered posting |
| SseFetch.ReplyMeans | Framework/src/StorageService/SseServer.cpp:208-218 | a reply holds the entry of each request, and no reply means a posting without an answer |
| Requests.RequestsExact | Search/src/rbisen/SseIee.cpp:326-344 | the two loops ask for every posting of every word once |
| Requests.PermutationOfDistinct | Search/src/rbisen/SseIee.cpp:331-343 | a rearrangement of the requests has the same ones, without duplicates |
| Requests.SlotsWrittenOnce | Search/src/rbisen/SseIee.cpp:441-446 | writing the slot of every request in turn writes each slot of each word exactly once |
| Requests.ProgressDone | Search/src/rbisen/SseIee.cpp:410-449 | when every request is filled the tokens are completely fetched |
| Ranking.PrefixIsTop | Search/src/rbisen/SseIee.cpp:633-658 | the first ten of the sorted pairs, or all of fewer, are in order and none left out scores above one of them |
| Ranking.QSort | Search/src/rbisen/SseIee.cpp:633 | the pairs are rearranged so that the comparison never puts a lower score first |
| Ranking.CalcTfidf | Search/src/rbisen/SseIee.cpp:495-521 | every response document is paired with its score |
| Ranking.CalcIdf | Search/src/rbisen/SseIee.cpp:480-492 | the idf of every word is set, 0 for a word without documents, and nothing else changes |
| Ranking.Respond | Search/src/rbisen/SseIee.cpp:647-658 | the bytes of the response: the number of pairs, the scoring flag, the ten best as id and double, zeros up to ten pairs |
| Ranking.DecodeResponse | Framework/src/Client/bisen_tests.cpp:140-171 | from those bytes the client reads exactly the pairs that are there, each id and the double of its score |
| Ranking.PairInResponse | Search/src/rbisen/SseIee.cpp:655-658 | pair i stands at byte 9 + 12 i, its double behind its id |
| ShuntingYard.ShuntingYard | Framework/src/Client/rbisen/QueryParser.cpp:67-120 | the loop computes the translation function, its two exceptions and the read of an empty stack included |
| ShuntingYard.YardOfQuery | Framework/src/Client/rbisen/QueryParser.cpp:67-120 | the complete output for every printed query tree |
| ShuntingYard.YardIsPostfixExactly | Framework/src/Client/rbisen/QueryParser.cpp:77-88 | the output is the postfix form of the query's formula if and only if no `!` directly follows a `!` |
| ShuntingYard.EveryFormulaCanBeAsked | Framework/src/Client/rbisen/QueryParser.cpp:67-120 | every formula has a printing that is translated correctly |
| ShuntingYard.TwoNotsAreNotPostfix | Framework/src/Client/rbisen/QueryParser.cpp:79-86 | `!!a` comes out as `! a !`, which is no postfix form |
| ShuntingYard.TwoNotsChangeTheFormula | Framework/src/Client/rbisen/QueryParser.cpp:79-86 | `a & !!b` comes out as the postfix form of `!a & !b` |
| ShuntingYard.TwoNotsChangeTheMeaning | Framework/src/Client/rbisen/QueryParser.cpp:79-86 | the two formulas differ wherever both words occur |
| Query.DoubleNegationIsAdjacency | Framework/src/Client/rbisen/QueryParser.cpp:79 | adjacent `!` tokens are exactly unparenthesised double negations |
| DoubleNegation.ShuntedIsTranslated | Framework/src/Client/rbisen/QueryParser.cpp:77-88 | the output for every query of the grammar: the `!` that are sent out before the first word, then the postfix form of the translated formula |
| DoubleNegation.RefusedExactly | Framework/src/Client/rbisen/QueryParser.cpp:77-88 | the output is a postfix form iff no `!!` stands before the first word, and then that of the translated formula |
| DoubleNegation.LeadingIsNots | Framework/src/Client/rbisen/QueryParser.cpp:77-88 | a `!!` before the first word is exactly what sends a `!` out before it |
| DoubleNegation.TranslatedIsErased | Framework/src/Client/rbisen/QueryParser.cpp:77-88 | without a double negation the translated formula is the one that was asked |
| DoubleNegation.MeaningKept | Framework/src/Client/rbisen/QueryParser.cpp:77-88 | a query whose `!` make up for each other is translated to a formula with the same truth value under every valuation |
| DoubleNegation.MeaningKeptExactly | Framework/src/Client/rbisen/QueryParser.cpp:77-88 | for queries that repeat no word these are the only ones whose truth value survives |
| DoubleNegation.ThreeNotsKeepTheMeaning | Framework/src/Client/rbisen/QueryParser.cpp:77-88 | `a & !!!b` is translated to another formula with the same meaning |
| YardOnAnyTokens.YardOnAnyTokens | Framework/src/Client/rbisen/QueryParser.cpp:67-120 | for every token list: the top of an empty stack is read iff the first unmatched `)` comes before any operator outside parentheses, the exception is thrown iff the parentheses fail otherwise, and success iff they match; then the output has no parenthesis, all words in order and every operator |
| YardOnAnyTokens.EmptyStackIsRead | Framework/src/Client/rbisen/QueryParser.cpp:91-98 | `a)` reads the top of the empty stack, `a & b)` throws |
| Tokenizer.Tokenize | Framework/src/Client/rbisen/QueryParser.cpp:20-65 | the loop ends and computes the token list of the text |
| Tokenizer.LexUndoesSpelling | Framework/src/Client/rbisen/QueryParser.cpp:20-65 | any way to write a token list, with any spacing, `&` or `&&`, `\|` or `\|\|`, `!`, parentheses and words of other characters, is read back as that list, words as the stems of their small letters |
| Tokenizer.EveryTextIsWritten | Framework/src/Client/rbisen/QueryParser.cpp:20-65 | every text without NUL is such a way to write some token list |
| Tokenizer.LexStopsAtNul | Framework/src/Client/rbisen/QueryParser.cpp:24 | what stands behind the first NUL is not read |
| QueryText.TextIsRead | Framework/src/Client/rbisen/QueryParser.cpp:20-65 | every text of the query grammar is read as the tokens of its tree |
| QueryText.NoBangBangIs | Framework/src/Client/rbisen/QueryParser.cpp:79 | a text has no `!` directly before a `!` exactly when its tree has no double negation |
| Tokenizer.StemWord | Framework/src/Client/rbisen/EnglishAnalyzer.cpp:28-38 | a word is lower-cased and stemmed in place |
| Formula.AcceptsExactlyPostfix | Search/src/rbisen/QueryEvaluator.cpp:47-149 | the stack discipline accepts exactly the postfix forms of trees, and finds the tree |
| Formula.PostfixUnique | Search/src/rbisen/QueryEvaluator.cpp:47-149 | a postfix list is the form of one tree only |
| QueryEvaluator.Evaluate | Search/src/rbisen/QueryEvaluator.cpp:42-155 | an exit exactly when the tokens are no postfix form; otherwise the evaluation of their one tree, on stacks of any height |
| QueryEvaluator.EvalMeaning | Search/src/rbisen/QueryEvaluator.cpp:42-155 | a document is in the result exactly when it exists and satisfies the formula |
| QueryEvaluator.EvalIncreasing | Search/src/rbisen/util/vec_int.cpp:56-60 | results are in increasing order |
| IntVectors.VecUnion | Search/src/rbisen/util/vec_int.cpp:35-63 | the strictly increasing list of the union; the computed capacity is the number of pushes |
| IntVectors.VecIntersection | Search/src/rbisen/util/vec_int.cpp:65-91 | the strictly increasing list of the intersection; the computed capacity is the number of pushes |
| IntVectors.NotDocs | Search/src/rbisen/QueryEvaluator.cpp:8-38 | the strictly increasing list of the complement; the computed capacity is the number of pushes |
| IntVectors.ComplementFitsExactly | Search/src/rbisen/QueryEvaluator.cpp:17-27 | the capacity computed for the complement is enough exactly for lists without duplicates |
| IntVectors.CountUnion | Search/src/rbisen/util/vec_int.cpp:36-51 | every count is 0, 1 or 2 and tells the number of operands an id is in; `ops` is the size of the union |
| IntVectors.CountIntersection | Search/src/rbisen/util/vec_int.cpp:66-79 | the same, with the size of the intersection |
| IntVectors.SelectIs | Search/src/rbisen/util/vec_int.cpp:56-60 | the collected list is strictly increasing and has exactly the elements in range |
| IntVectors.VecInt.PushBack | Search/src/rbisen/util/vec_int.cpp:17-20 | a full list drops the element |
| IntVectors.IndexOf | Search/src/rbisen/util/vec_int.cpp:26-33 | the first index of the element, or -1 when it does not occur |
| TokenVectors.VecToken.PushBack | Search/src/rbisen/util/vec_token.cpp:28-34 | the token is appended, after growing when the array is full |
| TokenVectors.VecToken.Grow | Search/src/rbisen/util/vec_token.cpp:11-22 | twice the room, the same contents |
| TokenVectors.VecToken.PopBack | Search/src/rbisen/util/vec_token.cpp:36-39 | the last token is removed, if there is one |
| QueryMessages.QueryRoundTrip | Search/src/rbisen/SseIee.cpp:551-580 | parsing the client's message recovers tokens, counters, keys and the document count, and consumes every byte |
| SseClient.Client.WriteQuery | Framework/src/Client/rbisen/SseClient.cpp:143-202 | the message is written into a buffer of the computed size, to its last byte |
| SseClient.Client.Search | Framework/src/Client/rbisen/SseClient.cpp:138-203 | the message for the translated query, or the parser's error |
| SseClient.Client.GenerateAddMsg | Framework/src/Client/rbisen/SseClient.cpp:90-135 | counters are bumped and the message holds the records of the document |
| SseClient.Client.AddNewDocument | Framework/src/Client/rbisen/SseClient.cpp:79-88 | the document gets the next number and its message holds its records |
| Messages.AddMessageRoundTrip | Search/src/rbisen/SseIee.cpp:195-261 | the enclave makes one pair of every record of an add message, in order |
| Messages.RecordRoundTrip | Search/src/rbisen/SseIee.cpp:226-260 | label and entry are those of the record the client wrote |
| ByteBuffers.IntRoundTrip | Framework/src/Client/rbisen/Utils.c:71-84 | an int survives being written and read |
| ByteBuffers.AddToArr | Framework/src/Client/rbisen/Utils.c:66-69 | the bytes stand at the cursor, the cursor behind them, everything else is unchanged |
| WireFormat.IntBytes | Framework/src/Client/rbisen/Utils.c:71-84 | an int is four bytes, lowest first, negative ones as their complement |
| WireFormat.SizeBytes | Search/src/rbisen/SseIee.cpp:652-655 | a size is eight bytes, lowest first |
| WireFormat.AddMessageLayout | Framework/src/Client/rbisen/SseClient.cpp:90-132 | 'a', then 44 bytes for each record: document, counter, frequency, hash |
| WireFormat.PairLayout | Search/src/rbisen/SseIee.cpp:226-260 | label and decrypted entry of a record, field by field |
| WireFormat.EntryIsOpened | Search/src/rbisen/SseIee.cpp:408-446 | a decrypted entry is taken exactly when it starts with the label that was asked for |
| WireFormat.LastPairWins | Framework/src/StorageService/SseServer.cpp:134-138 | the server keeps under a label what came last for it |
| WireFormat.OtherLabelsStay | Framework/src/StorageService/SseServer.cpp:134-138 | labels for which nothing came keep what they had |
| WireFormat.TokenLayout | Framework/src/Client/rbisen/SseClient.cpp:180-192 | 'w', counter and hash for a word, operators as their character |
| WireFormat.QueryMessageLayout | Framework/src/Client/rbisen/SseClient.cpp:175-200 | '1', 's', the tokens, 'z' and the number of documents |
| WireFormat.BulkMessageLayout | Framework/src/Client/bisen_tests.cpp:54-87 | 'z', the number of messages and each message behind its length |
| WireFormat.ResponseLayout | Search/src/rbisen/SseIee.cpp:647-658 | 129 bytes: the number of pairs, 1, the pairs at 9 + 12 i, zeros |
| SseUpdate.Update | Search/src/rbisen/SseIee.cpp:188-294 | all pairs of a message reach the server in order, each once, in batches of 1000 and one of what is left |
| SseUpdate.PairsOfAddMessage | Search/src/rbisen/SseIee.cpp:195-205 | for a message of the client these are the pairs of its records |
| SseServer.Server.Add | Framework/src/StorageService/SseServer.cpp:101-157 | the pairs of the buffer are stored in order |
| SseServer.Server.Search | Framework/src/StorageService/SseServer.cpp:158-234 | the entries of all labels in order, or an exit at a missing label |
| SseServer.FetchExact | Framework/src/StorageService/SseServer.cpp:208-218 | a batch is answered exactly when all its labels are stored, each with its entry |
| BulkUpdates.MakeBulk | Framework/src/Client/bisen_tests.cpp:54-87 | the bulk message holds one add message per document, in a buffer of exactly the computed size |
| BulkUpdates.ProcessBulk | Search/src/trusted.cpp:778-805 | every record of every message reaches the server once and in order, in bounded batches |
| BulkUpdates.BulkConserves | Search/src/trusted.cpp:786-798 | packing and unpacking conserves the records |
| BulkUpdates.FrameAt | Search/src/trusted.cpp:787-797 | the cursor of the unpacking loop stands at the length of the next message |
| PorterStemmer.Stemmer.StemInPlace | Framework/src/Client/rbisen/PorterStemmer.c:451-471 | the result is the stem by the rules, lies inside the word, and nothing around the word changes |
| PorterStemmer.Stemmer.M | Framework/src/Client/rbisen/PorterStemmer.c:86-110 | the nested loops end and count the vowel-consonant transitions |
| PorterStemmer.Stemmer.VowelInStem | Framework/src/Client/rbisen/PorterStemmer.c:114-118 | whether the part up to j has a vowel |
| PorterStemmer.Stemmer.Ends | Framework/src/Client/rbisen/PorterStemmer.c:148-155 | tests for the suffix and leaves j before it |
| PorterStemmer.Stemmer.Setto | Framework/src/Client/rbisen/PorterStemmer.c:160-164 | replaces what follows j, inside the word |
| PorterStemmer.Stemmer.R | Framework/src/Client/rbisen/PorterStemmer.c:168 | replaces the suffix when the measure before it is positive |
| PorterStemmer.Stemmer.Step1abInPlace | Framework/src/Client/rbisen/PorterStemmer.c:192-211 | plurals, -ed and -ing as the rules say |
| PorterStemmer.Stemmer.Step1cInPlace | Framework/src/Client/rbisen/PorterStemmer.c:215 | terminal y as the rule says |
| PorterStemmer.Stemmer.Step2InPlace | Framework/src/Client/rbisen/PorterStemmer.c:222-331 | the rule with the longest matching suffix of the whole table, although one letter picks a group and the first match wins |
| PorterStemmer.Stemmer.Step3InPlace | Framework/src/Client/rbisen/PorterStemmer.c:335-374 | the same for step 3 |
| PorterStemmer.Stemmer.Step4InPlace | Framework/src/Client/rbisen/PorterStemmer.c:378-428 | the same for step 4, -ion only after s or t |
| PorterStemmer.Stemmer.Step5InPlace | Framework/src/Client/rbisen/PorterStemmer.c:433-440 | final e and double l as the rules say, although the measure is taken before the e goes |
| PorterStemmer.Stemmer.LaterSteps | Framework/src/Client/rbisen/PorterStemmer.c:463-469 | the composition of the steps; the guard k > k0 holds at every read of b[k - 1] |
| PorterRules.TableIsGroup | Framework/src/Client/rbisen/PorterStemmer.c:222-224 | over the whole table only the group of the word's own letter can match |
| PorterRules.EnoughLetters | Framework/src/Client/rbisen/PorterStemmer.c:463-469 | no step before step 4 leaves fewer than two letters of two |
| PorterRules.MeasureNeedsLetters | Framework/src/Client/rbisen/PorterStemmer.c:75-84 | a word of n letters has a measure of at most n / 2 |
| PorterDispatch.FirstIsLongest | Framework/src/Client/rbisen/PorterStemmer.c:223-330 | in a list ordered this way the first match is the longest |
| PorterDispatch.Step2Dispatch | Framework/src/Client/rbisen/PorterStemmer.c:222-331 | for every word the first match in the group of its last letter but one does what the longest match in the whole table does |
| PorterDispatch.Step3Dispatch | Framework/src/Client/rbisen/PorterStemmer.c:335-374 | the same for step 3 and the last letter |
| PorterDispatch.Step4Dispatch | Framework/src/Client/rbisen/PorterStemmer.c:378-428 | the same for step 4, where the suffix is removed |
| PorterDispatch.Step2Order | Framework/src/Client/rbisen/PorterStemmer.c:223-330 | of two suffixes of a group that both match, the earlier one is longer |
| PorterDispatch.Step4Order | Framework/src/Client/rbisen/PorterStemmer.c:379-426 | the same for step 4 |
| PorterLaws.Consonants | Framework/src/Client/rbisen/PorterStemmer.c:59-73 | a letter is a consonant unless it is a, e, i, o or u, or a y that follows one |
| PorterLaws.MeasureCounts | Framework/src/Client/rbisen/PorterStemmer.c:75-84 | the measure is the number of places where a consonant follows a vowel |
| PorterLaws.VowelLaw | Framework/src/Client/rbisen/PorterStemmer.c:112-118 | a word has a vowel iff it has an a, e, i, o or u, or a y behind its first letter |
| PorterLaws.CvcLaw | Framework/src/Client/rbisen/PorterStemmer.c:128-144 | consonant, vowel, consonant, the last one not w, x or y |
| PorterLaws.Step1aLaws | Framework/src/Client/rbisen/PorterStemmer.c:193-196 | -sses becomes -ss, -ies -i, -ss stays, any other -s goes, no other word changes |
| PorterLaws.Step1bLaws | Framework/src/Client/rbisen/PorterStemmer.c:197-198 | -eed becomes -ee after a positive measure, -ed and -ing go after a vowel, no other word changes |
| PorterLaws.RestoreLaws | Framework/src/Client/rbisen/PorterStemmer.c:200-202 | -at, -bl and -iz get their e back |
| PorterLaws.DoubleLaw | Framework/src/Client/rbisen/PorterStemmer.c:203-208 | a double consonant is halved unless it is ll, ss or zz |
| PorterLaws.ShortLaw | Framework/src/Client/rbisen/PorterStemmer.c:209 | else an e comes back exactly on words of measure 1 that end consonant, vowel, consonant |
| PorterLaws.Step1cLaws | Framework/src/Client/rbisen/PorterStemmer.c:215 | -y becomes -i after a vowel, no other word changes |
| PorterLaws.Step2Laws | Framework/src/Client/rbisen/PorterStemmer.c:222-331 | what becomes of every stem with each of the 21 suffixes |
| PorterLaws.Step3Laws | Framework/src/Client/rbisen/PorterStemmer.c:335-374 | the same for the 7 suffixes of step 3 |
| PorterLaws.Step4Laws | Framework/src/Client/rbisen/PorterStemmer.c:378-428 | the same for the 19 suffixes of step 4, -ion after s or t only |
| PorterLaws.OtherWordsStay | Framework/src/Client/rbisen/PorterStemmer.c:222-428 | a word with none of these suffixes is left alone by the step |
| PorterLaws.Step5aLaws | Framework/src/Client/rbisen/PorterStemmer.c:433-438 | a final e goes after a measure above 1, or 1 unless consonant, vowel, consonant stand before it |
| PorterLaws.Step5bLaws | Framework/src/Client/rbisen/PorterStemmer.c:439 | -ll becomes -l in words of measure above 1, no other word changes |
| PorterLaws.GeneralizationsIsGener | Framework/src/Client/rbisen/PorterStemmer.c:451-471 | the steps in their order: `generalizations` becomes `gener` |
| PorterLaws.OscillatorsIsOscil | Framework/src/Client/rbisen/PorterStemmer.c:451-471 | `oscillators` becomes `oscil` |
| PorterLaws.HoppingIsHop | Framework/src/Client/rbisen/PorterStemmer.c:451-471 | `hopping` becomes `hop` |
| PorterLaws.HappyIsHappi | Framework/src/Client/rbisen/PorterStemmer.c:451-471 | `happy` becomes `happi` |
| PorterLaws.CeaseIsCeas | Framework/src/Client/rbisen/PorterStemmer.c:451-471 | `cease` becomes `ceas` |
| WorkerPool.Barrier | Framework/src/Iee/thread_handler.cpp:59-92 | for every run and every round: between entry and return exactly the tasks accepted for the round are called, each once |
| WorkerPool.OfferExactly | Framework/src/Iee/thread_handler.cpp:41-57 | an offer is accepted exactly when a thread is left for it: the first by the main thread, the next by slot 0, 1, …; otherwise nothing changes |
| WorkerPool.OffersAreCalled | Framework/src/Iee/thread_handler.cpp:41-92 | for every run: between two returns exactly as many tasks are called as offers found a thread, with k offers and n threads the minimum of the two |
| WorkerPool.ReturnLeavesNothing | Framework/src/Iee/thread_handler.cpp:80-91 | for every run: after the return no slot has a task or a flag set, and every worker is parked |
| WorkerPool.InvAlways | Framework/src/Iee/thread_handler.cpp:41-92 | the handshake invariant and the exact task log hold in every state of every run |
| WorkerPool.ReadyAndDoneExclusive | Framework/src/Iee/Enclave.cpp:24-36 | no slot ever has both flags set |
| WorkerPool.SlotsKept | Framework/src/Iee/Enclave.cpp:24-36 | every step of every thread keeps the handshake of every slot |
| WorkerPool.CalledKept | Framework/src/Iee/Enclave.cpp:30 | a step adds to the called tasks exactly the one it logs |
| WorkerPool.NeverStuck | Framework/src/Iee/thread_handler.cpp:59-91 | inside `thread_do_work` some thread can always take a step, so no wake-up is lost |
| WorkerPool.OwnStepDecreases | Framework/src/Iee/thread_handler.cpp:59-91 | every step of the main thread or a worker uses up some of the remaining work |
| WorkerPool.OwnStepsBounded | Framework/src/Iee/thread_handler.cpp:59-91 | a bound on the steps of any schedule, two more per unasked wake-up or entering thread |
| WorkerPool.DoWorkReturns | Framework/src/Iee/thread_handler.cpp:59-91 | from every reachable state some steps of the threads lead to the return |
| WorkerPool.EveryScheduleReturns | Framework/src/Iee/thread_handler.cpp:59-91 | every sequence of the threads' own steps is at most as long as the measure of its first state, and where none can follow `thread_do_work` has returned |
| Crc32.Tcrc32 | Framework/src/StorageService/SseServer.hpp:92-99 | the accumulator stays below 2^32 and is the bitwise CRC of the bytes |
| Crc32.CrcIsRemainder | Framework/src/StorageService/SseServer.hpp:92-99 | the CRC is the remainder of the message by long division with x^32 + x^26 + x^23 + x^22 + x^16 + x^12 + x^11 + x^10 + x^8 + x^7 + x^5 + x^4 + x^2 + x + 1 |
| Crc32.GeneratorIs | Framework/src/StorageService/SseServer.hpp:36-89 | the constant that the table is made from is that polynomial, highest power in the lowest bit |
| Crc32.KnownHashes | Framework/src/StorageService/SseServer.hpp:92-99 | no bytes hash to 0, the byte 1 to 0x77073096 |
| Crc32.TableIsShift8 | Framework/src/StorageService/SseServer.hpp:36-89 | every table entry is eight division steps of its index |
| Crc32.ByteAtOnce | Framework/src/StorageService/SseServer.hpp:95-96 | one table step equals feeding the eight bits of the byte |
| Crc32.CrcLinear | Framework/src/StorageService/SseServer.hpp:92-99 | the hash of the XOR of two equally long messages is the XOR of their hashes |

## Left out

- Heap lifetime: document lists are values in query tokens and on the evaluation stack. The source releases operand arrays in `evaluate` that `calc_tfidf` reads later through the query tokens; the model does not capture that.
- SseServer.Server.Add: the map stores byte strings, not pointers into receive buffers.
- Floating point: scores are reals and the logarithm is a parameter, so rounding and ties made by rounding are not modelled. A double is eight bytes in an arbitrary format; the client gets the score as that format reads it back.
- EndToEnd.BisenSearch: a query needs fewer than 2^31 labels in all, because the source counts them in an `unsigned` and indexes them with an `int`.
- EndToEnd.BisenUpdate: document numbers stay within an `int` and messages within a `size_t`; the source checks neither. It describes one file; the loop over files and its early end are not modelled.
- SseFetch.FillRequests: clearing the request array before it is filled has no effect on what is read and is not modelled.
- Ranking.QSort: an insertion sort stands for the library's `qsort`; only its contract is used.
- The build without scoring (`BISEN_SCORING` 0), which returns all ids.
- The SGX calls, sockets, TLS, benchmark counters and prints, the Redis and Cassandra back ends, and setup messages other than the start state.
- AES, SHA-256 and libsodium: functions with the laws named above.
- The mixing of the CRC into a bucket number (`VoidHash` after the CRC) and `VoidEqual`: the label map is a map on labels.
- Keyword extraction from files and the stop words: a document is a list of words with frequencies.
- Tokenizer.StemWord: upper case is that of ASCII letters.
- The worker pool's registration of entering threads is one atomic step, and tasks end; memory-model effects of the unlocked reset of `done` are not modelled.
- WorkerPool.EveryScheduleReturns: infinite schedules are not modelled; steps of the environment (unasked wake-ups, entering threads) are bounded in OwnStepsBounded by two more steps each.
