/** The constants the services share (util/constants.js). The paths read from the
    environment configuration are parameters of the operations instead. */
module Constants {

  const FirstItem: nat := 0
  const SecondItem: nat := 1
  // Named "third" and "fourth" but used as the indexes 3 and 4 (see Dto.Build).
  const ThirdItem: nat := 3
  const FourthItem: nat := 4
  const OneDigit: nat := 1
  const TwoDigits: nat := 2
  const ThreeDigits: nat := 3

  /** The lengths a normalised number may have. */
  const NumbersOfValidChars: seq<nat> := [3, 7, 8, 9, 10, 11, 12]

  const ObjectSeparator: char := ':'
  const PlusSignal: string := "+"
  const EmptyString: string := ""
  const BlankSpace: char := ' '
  const DirSeparator: string := "/"
}
