/** What the modules share: error codes (include/nfc/nfc.h), and bytes as numbers. */
module Nfc {
  const NFC_SUCCESS := 0
  const NFC_EIO := -1
  const NFC_EOVFLOW := -5
  const NFC_ETIMEOUT := -6
  const NFC_EOPABORTED := -7
  const NFC_ECHIP := -90

  // A uint8_t, where it is a matter of lengths and sums and not of bits.
  type octet = x: int | 0 <= x < 256
}
