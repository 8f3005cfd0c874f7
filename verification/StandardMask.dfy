// The eight data masks as the standard has them (ISO/IEC 18004:2015, section 7.8.2), for
// the reader: by the residues of the row and the column.
module StandardMask {

  // Whether the mask with this reference flips the module in row r and column c.
  predicate Flips(reference: nat, r: nat, c: nat)
    requires reference < 8
  {
    match reference
    case 0 => r % 2 == c % 2
    case 1 => r % 2 == 0
    case 2 => c % 3 == 0
    case 3 => r % 3 + c % 3 == 0 || r % 3 + c % 3 == 3
    case 4 => (r % 4 < 2) == (c % 6 < 3)
    case 5 => (r * c) % 6 == 0
    case 6 => (r * c) % 6 < 3
    case _ => (r % 2 == c % 2) == ((r * c) % 3 != 1)
  }
}
