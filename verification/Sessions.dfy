/** Commands in any order, each cut short anywhere. */
module Sessions {
  import opened FileSystem
  import opened Journal
  import opened Scripts
  import opened Steps

  /** A command and the number of steps its process lives. */
  datatype Order = Order(cmd: Command, fuel: nat)

  function RunSession(s: State, orders: seq<Order>): State {
    if orders == [] then s
    else
      var last := orders[|orders| - 1];
      RunCommand(RunSession(s, orders[..|orders| - 1]), last.cmd, last.fuel).s
  }

  lemma {:induction false} SessionPreserves(s: State, orders: seq<Order>, inv: State -> bool)
    requires inv(s)
    requires forall r: State, o: Order :: inv(r) && o in orders ==> inv(RunCommand(r, o.cmd, o.fuel).s)
    ensures inv(RunSession(s, orders))
    decreases |orders|
  {
    if orders != [] {
      SessionPreserves(s, orders[..|orders| - 1], inv);
      assert orders[|orders| - 1] in orders;
    }
  }
}
