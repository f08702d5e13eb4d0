/** The optional value used wherever the bot reads something that may be absent:
    a message without a guild, a content string with no drop announcement. */
module Options {

  datatype Option<+T> = None | Some(value: T)

}
