/** The values api/internal/domain/domain.go passes around. */
module Domain {
  datatype Sentiment = Unspecified | Negative | Neutral | Positive

  datatype Score = Score(sentiment: Sentiment, confidence: real, polarity: real)

  datatype AspectScore = AspectScore(aspect: string, score: Score)
}
