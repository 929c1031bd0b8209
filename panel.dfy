/**
 * The four front-panel switches as the MCU sees them: `updateInputMCU`
 * packs them into the 8-bit input latch, G2 first and Day/Night last,
 * behind four zero bits.
 */
module Panel {
  import opened Bits

  function SwitchBit(on: bool): Bit
  {
    if on then '1' else '0'
  }

  /** `'0000' + G2 + G1 + car on the side street + day/night`, each switch as one bit. */
  function PackInputs(g2: bool, g1: bool, car: bool, day: bool): (r: Bits)
    ensures |r| == 8
    ensures r[..4] == Zeros(4)
    ensures (r[4] == '1' <==> g2) && (r[5] == '1' <==> g1) &&
            (r[6] == '1' <==> car) && (r[7] == '1' <==> day)
  {
    Zeros(4) + [SwitchBit(g2), SwitchBit(g1), SwitchBit(car), SwitchBit(day)]
  }

  function Weight(on: bool, w: nat): nat
  {
    if on then w else 0
  }

  /**
   * As a number the input latch reads `8*G2 + 4*G1 + 2*car + day`, so it is
   * below 16.
   */
  lemma ValueOfInputs(g2: bool, g1: bool, car: bool, day: bool)
    ensures FromStringToInt(PackInputs(g2, g1, car, day)) ==
      Weight(g2, 8) + Weight(g1, 4) + Weight(car, 2) + Weight(day, 1)
    ensures FromStringToInt(PackInputs(g2, g1, car, day)) < 16
  {
    var r := PackInputs(g2, g1, car, day);
    ValueOfByte(r);
  }

  /** Distinct switch settings give distinct inputs. */
  lemma PackInputsInjective(g2: bool, g1: bool, car: bool, day: bool,
                            h2: bool, h1: bool, car': bool, day': bool)
    requires PackInputs(g2, g1, car, day) == PackInputs(h2, h1, car', day')
    ensures g2 == h2 && g1 == h1 && car == car' && day == day'
  {
    var r := PackInputs(g2, g1, car, day);
    assert r[4] == PackInputs(h2, h1, car', day')[4];
  }
}
