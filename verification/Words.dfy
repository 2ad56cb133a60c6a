/** Wrap-around of the firmware's narrow counters. */
module Words {

  function Wrap8(x: nat): nat { x % 0x100 }

  function Wrap16(x: nat): nat { x % 0x1_0000 }
}
