/** The 16-bit complex sample of the transmit chain. */
module ComplexNumbers {

  datatype Complex32 = Complex32(re: int, im: int)

  const ORIGIN := Complex32(0, 0)
}
