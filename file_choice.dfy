/** The index rule of choose_file (battery-stat.py:50-64): the reply to the
    prompt picks one of `count` files, counted from 1; an empty reply picks
    the last; anything else is refused and the prompt repeats. */
module FileChoice {
  import opened Wrappers

  /** The user's reply, as int() sees it. */
  datatype Reply = Blank | Number(n: int) | NotANumber

  /** The 0-based index chosen, or None when the prompt must be repeated. */
  function ChooseIndex(reply: Reply, count: nat): (r: Option<nat>)
    ensures r.Some? ==> r.value < count
    ensures reply == Blank && count > 0 ==> r == Some(count - 1)
    ensures reply.Number? ==> (r.Some? <==> 1 <= reply.n <= count)
    ensures reply.Number? && r.Some? ==> r.value + 1 == reply.n
    ensures reply == NotANumber ==> r == None
  {
    var k := match reply
      case Blank => Some(count)
      case Number(n) => Some(n)
      case NotANumber => None;
    if k.None? || !(0 <= k.value - 1 < count) then None
    else Some(k.value - 1)
  }
}
