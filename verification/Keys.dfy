/** Cache keys.  Only the tag index and the matcher look at their text. */
module Keys {
  datatype Key = Key(text: string)
}
