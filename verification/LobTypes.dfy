/** The plain values shared by both order books. */
module LobTypes {

  datatype Side = Buy | Sell {
    function Opposite(): Side { if Buy? then Sell else Buy }
  }

  const INVALID_ID: nat := 0
  const TWO_TO_32: nat := 0x1_0000_0000

  /** One match event; the price is the maker's resting price. */
  datatype Exec = Exec(makerId: nat, takerId: nat, px: nat, qty: nat)
}
