/** What a connection does to a request. */
module Network {

  /** Lost on the way there, handled but lost on the way back, or answered. */
  datatype Fate = RequestLost | ReplyLost | Answered

  /** Does no attempt bring a reply? */
  predicate NoAnswer(fates: seq<Fate>) {
    Answered !in fates
  }

  /** Does any attempt arrive? */
  predicate Arrives(fates: seq<Fate>) {
    Answered in fates || ReplyLost in fates
  }
}
