/** The kinds of document the invoice module numbers and stores. */
module DocumentTypes {
  datatype DocumentType = Quote | Proforma | Invoice
}
