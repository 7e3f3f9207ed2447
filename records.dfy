/**
 * The record shape shared by the collector and the presenter: one normalised
 * headline as it is written to, and read back from, news-data.json.
 */
module Records {

  /** A value that may be absent (JavaScript `null` / `undefined`). */
  datatype Option<T> = None | Some(value: T)

  /** One normalised headline. Every field is a string; optional upstream
      fields have already been replaced by "" during normalisation. */
  datatype NewsRecord = NewsRecord(
    categoria: string,
    titolo: string,
    fonte: string,
    url: string,
    descrizione: string,
    pubblicato: string,
    data_articolo: string)

  /** The bucket name used for records that carry no calendar day. */
  const SENTINEL: string := "senzadata"

  /** The `per_data` bucket a record belongs to: its day, or the sentinel
      when the day is empty. */
  function DayKey(n: NewsRecord): (k: string)
    ensures k != ""
    ensures n.data_articolo != "" ==> k == n.data_articolo
    ensures n.data_articolo == "" ==> k == SENTINEL
  {
    if n.data_articolo != "" then n.data_articolo else SENTINEL
  }
}
