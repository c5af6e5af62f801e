/**
 * The DictScan helpers the AddField action calls. Their text surgery is not
 * part of this model: each is an arbitrary total function over strings, so
 * every property proved here holds whatever they do.
 */
module DictScan {
  import opened Wrappers
  import opened Ledger

  datatype Scanner = Scanner(
    /** `value_token_after(key, body)`: the value token written after `key`, if any. */
    valueTokenAfter: (string, string) -> Option<string>,
    /** `add_ref_to_array(arrayBody, ref)`. */
    addRefToArray: (string, Ref) -> string,
    /** `add_ref_to_inline_array(body, key, ref)`. */
    addRefToInlineArray: (string, string, Ref) -> string,
    /** `upsert_key_value(body, key, value)`. */
    upsertKeyValue: (string, string, string) -> string,
    /** `replace_key_value(body, key, value)`. */
    replaceKeyValue: (string, string, string) -> string,
    /** `encode_pdf_string(s)`. */
    encodePdfString: string -> string)
}
