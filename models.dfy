/** The records of package `models` that the extractor fills in. */
module Models {
  import opened GoStrings

  datatype Transaction = Transaction(
    id: Bytes,
    amount: Bytes,
    transactionDetail: Bytes,
    date: Bytes)

  datatype CreditCardInfo = CreditCardInfo(
    cardVariant: Bytes,
    cardLast4Digits: Bytes,
    billingCycle: Bytes,
    paymentDueDate: Bytes,
    totalBalance: Bytes,
    transactions: seq<Transaction>)

  /** The zero value `models.CreditCardInfo{}`. */
  const EmptyInfo := CreditCardInfo([], [], [], [], [], [])
}
