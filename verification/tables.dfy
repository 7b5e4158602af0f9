/** The rows of the four relational tables the chatbot reads and the sync
    jobs write, and the document shape handed to answer generation. Column
    sets follow the statements that read them; a NULL column is `None`. */
module Tables {
  import opened Wrappers

  /** A row of `orders`. `source` and `date` are the `order_source` and
      `order_date` columns the retrieval statements filter on; the sync job's
      mapping does not set them, so rows it inserts carry NULL there. */
  datatype OrderRow = OrderRow(
    poNo: string,
    custRef: string,
    status: string,
    source: Option<string>,
    date: Option<string>,
    json: string)

  /** A row of `inv_new`. `id` is the uuid text the duplicate clean-up orders
      by; together with `sku` it is the table's primary key. `category` is the
      `categories` column ("Wood", "Metal", ...). */
  datatype InvRow = InvRow(id: string, sku: string, category: string, json: string)

  /** A row of `products`. */
  datatype ProductRow = ProductRow(productId: int, name: string, json: string)

  /** A row of `pages`. */
  datatype PageRow = PageRow(pageId: int, name: string, json: string)

  /** Document metadata: the extracted order numbers for an order lookup, or
      the metadata mapping a vector-search hit carried. */
  datatype Metadata = OrderNumbers(numbers: seq<string>) | Fields(fields: map<string, string>)

  /** A retrieved passage handed to answer generation as context. */
  datatype Document = Document(content: string, metadata: Metadata)
}
