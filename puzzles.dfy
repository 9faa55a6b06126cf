/** A puzzle's scrambler as the handler sees it: its names and the collaborators it
    offers (scramble generation, preferred diagram size, diagram drawing), each given
    as a function whose workings are outside this model. */
module Puzzles {
  import opened ScrambleTable

  datatype Scrambler = Scrambler(
    shortName: string,
    longName: string,
    /** `generateScrambles(count)`; its randomness is the choice of this function. */
    generateScrambles: int -> seq<string>,
    /** `generateSeededScrambles(seed, count, offset)`. */
    generateSeededScrambles: (string, int, int) -> seq<string>,
    /** `getPreferredSize(width, height)`. */
    preferredSize: (int, int) -> Dimension,
    /** `drawScramble` into a template of the given size, with the parsed color scheme. */
    draw: (Dimension, string, ColorScheme) -> DrawOutcome)
}
