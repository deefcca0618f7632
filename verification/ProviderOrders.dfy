/** The status a provider reports for an order. */
module ProviderOrders {

  /** All but the last are final. */
  datatype OrderStatus = Filled | Canceled | Expired | Rejected | Stopped | DoneForDay | Working
}
