/** The records shared by the transcript utilities (src/types/index.ts). */
module Types {
  /** One transcribed word with its start and end time, in seconds. */
  datatype Word = Word(word: string, start: real, end: real)

  /**
   * A displayable line: its words' text, the start of its first word,
   * the end of its last word and the inclusive range of word indices.
   */
  datatype TranscriptLine = TranscriptLine(text: string, start: real, end: real, wordIndices: (int, int))
}
