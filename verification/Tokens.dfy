/** The names that all components share. */
module Tokens {
  type Token = nat
  type SeqId = int
}
