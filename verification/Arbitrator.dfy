/** Max-wins arbitration (core/thermal_arbitrator.c). */
module Arbitrator {
  import opened CInt

  method MaxWins(demands: seq<u8>) returns (winner: u8)
    ensures forall i :: 0 <= i < |demands| ==> demands[i] <= winner
    ensures winner == 0 || winner in demands
  {
    winner := 0;
    for i := 0 to |demands|
      invariant forall j :: 0 <= j < i ==> demands[j] <= winner
      invariant winner == 0 || winner in demands
    {
      if demands[i] > winner { winner := demands[i]; }
    }
  }
}
