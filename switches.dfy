/** Two switch boards as state machines: a single light switch, and two bulbs where turning
    the first off also turns the second off. */
module Switches {

  /** `LightSwitch::next_state`: toggling flips the switch. */
  function LightNext(on: bool): (r: bool)
    ensures r != on
  {
    !on
  }

  datatype TwoBulbs = TwoBulbs(firstBulb: bool, secondBulb: bool)

  datatype Toggle = FirstSwitch | SecondSwitch

  /** `WeirdSwitchMachine::next_state`. */
  function WeirdNext(s: TwoBulbs, t: Toggle): (r: TwoBulbs)
    ensures t == FirstSwitch ==> r.firstBulb == !s.firstBulb
    ensures t == FirstSwitch && !r.firstBulb ==> !r.secondBulb
    ensures t == FirstSwitch && r.firstBulb ==> r.secondBulb == s.secondBulb
    ensures t == SecondSwitch ==> r.firstBulb == s.firstBulb && r.secondBulb == !s.secondBulb
  {
    match t
    case FirstSwitch =>
      var first := !s.firstBulb;
      TwoBulbs(first, if !first then false else s.secondBulb)
    case SecondSwitch =>
      TwoBulbs(s.firstBulb, !s.secondBulb)
  }

  /** Toggling the light switch twice restores it. */
  lemma LightTwice(on: bool)
    ensures LightNext(LightNext(on)) == on
  {
  }

  /** Toggling the second switch twice restores both bulbs. */
  lemma SecondTwice(s: TwoBulbs)
    ensures WeirdNext(WeirdNext(s, SecondSwitch), SecondSwitch) == s
  {
  }

  /** Toggling the first switch twice restores the first bulb but leaves the second off:
      whichever way the first bulb started, it was off once in between. */
  lemma FirstTwice(s: TwoBulbs)
    ensures WeirdNext(WeirdNext(s, FirstSwitch), FirstSwitch) == TwoBulbs(s.firstBulb, false)
  {
  }

  /** With the first bulb off, nothing lights the second except its own switch. */
  lemma FirstOffKeepsSecond(s: TwoBulbs)
    requires !s.firstBulb
    ensures WeirdNext(s, FirstSwitch) == TwoBulbs(true, s.secondBulb)
  {
  }
}
