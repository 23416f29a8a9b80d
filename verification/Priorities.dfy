/** Process priorities, shared by the scheduler and the policy engine. */
module Priorities {
  datatype Priority = Idle | Low | Normal | High {
    function Rank(): nat { match this case Idle => 0 case Low => 1 case Normal => 2 case High => 3 }
  }
}
