/** Turns of one session as they travel: a sequence number and a payload. */
module NumberedTurns {
  datatype NumberedTurn = NumberedTurn(number: int, payload: string)

  function Numbers(turns: seq<NumberedTurn>): (r: seq<int>)
    ensures |r| == |turns| && forall i | 0 <= i < |turns| :: r[i] == turns[i].number
  {
    seq(|turns|, i requires 0 <= i < |turns| => turns[i].number)
  }

  /** The turns by number, the last of a number winning. */
  function MapOf(turns: seq<NumberedTurn>): map<int, string> {
    if turns == [] then map[]
    else MapOf(turns[..|turns| - 1])[turns[|turns| - 1].number := turns[|turns| - 1].payload]
  }
}
