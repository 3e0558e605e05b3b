/**
 The session goal each counting script fixes once at start-up: a base value
 plus a penalty per wrong quiz answer, where the number of wrong answers is
 the script's first command-line argument.
 */
module Targets {

  /** What `int(sys.argv[1])` produces: no argument at all, a token `int`
      rejects with ValueError, or an integer (of either sign). */
  datatype WrongCountArg = Absent | NotAnInteger | Integer(n: int)

  const PlankBaseSeconds: int := 30
  const PlankPenaltySeconds: int := 3
  const SquatBaseReps: int := 25
  const SquatPenaltyReps: int := 2

  /** The wrong-answer count the script uses: the parsed integer, else 0. */
  function WrongCount(arg: WrongCountArg): (n: int)
    ensures arg.Integer? ==> n == arg.n
    ensures !arg.Integer? ==> n == 0
  {
    match arg
    case Integer(k) => k
    case _ => 0
  }

  /** The hold time, in seconds, the plank trainer asks for. */
  function PlankTarget(arg: WrongCountArg): (t: int)
    ensures arg.Integer? ==> t == 30 + 3 * arg.n
    ensures !arg.Integer? ==> t == 30
  {
    PlankBaseSeconds + WrongCount(arg) * PlankPenaltySeconds
  }

  /** The number of squats the squat counter starts counting down from. */
  function SquatTarget(arg: WrongCountArg): (c: int)
    ensures arg.Integer? ==> c == 25 + 2 * arg.n
    ensures !arg.Integer? ==> c == 25
  {
    SquatBaseReps + WrongCount(arg) * SquatPenaltyReps
  }

  /** The wrong-answer count can be read back from either target, so
      distinct counts always give distinct goals. */
  lemma TargetsDetermineWrongCount(arg: WrongCountArg)
    ensures (PlankTarget(arg) - 30) % 3 == 0
    ensures (PlankTarget(arg) - 30) / 3 == WrongCount(arg)
    ensures (SquatTarget(arg) - 25) % 2 == 0
    ensures (SquatTarget(arg) - 25) / 2 == WrongCount(arg)
  {
  }

  /** Every extra wrong answer makes both goals strictly harder. */
  lemma TargetsStrictlyIncrease(m: int, n: int)
    requires m < n
    ensures PlankTarget(Integer(m)) + 3 <= PlankTarget(Integer(n))
    ensures SquatTarget(Integer(m)) + 2 <= SquatTarget(Integer(n))
  {
  }

  /** A missing argument and an unparsable one both give the base goal,
      the same as an explicit 0. */
  lemma FallbackIsZeroPenalty(arg: WrongCountArg)
    requires !arg.Integer?
    ensures PlankTarget(arg) == PlankTarget(Integer(0)) == 30
    ensures SquatTarget(arg) == SquatTarget(Integer(0)) == 25
  {
  }
}
