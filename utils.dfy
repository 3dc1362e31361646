/** The translation helper of `Utils.ts` and the part of the host's RawMessage type it builds. */
module Utils {
  import opened Wrappers

  /** The parameters of a translated message: plain strings, or one nested message. */
  datatype WithParams = Strings(strings: seq<string>) | Nested(message: RawMessage)

  /** A host text message; only the fields the dialogue library reads or writes. */
  datatype RawMessage = RawMessage(text: Option<string>, translate: Option<string>, with: Option<WithParams>)

  /** The second argument of `TRANSLATE`: left out, a string, or a RawMessage. */
  datatype TranslateArg = NoArg | StringArg(s: string) | MessageArg(message: RawMessage)

  /**
   * `TRANSLATE(translate, with_, ...rest)`: a message translating `key`. A string `with_`
   * starts the parameter list and `rest` follows it; a RawMessage `with_` is used as it is
   * and `rest` is dropped; a missing `with_` leaves `with` undefined.
   */
  function Translate(key: string, with_: TranslateArg, rest: seq<string>): (m: RawMessage)
    ensures m.translate == Some(key) && m.text == None
    ensures with_.StringArg? ==>
              && m.with.Some? && m.with.value.Strings?
              && |m.with.value.strings| == 1 + |rest|
              && m.with.value.strings[0] == with_.s && m.with.value.strings[1..] == rest
    ensures with_.MessageArg? ==> m.with == Some(Nested(with_.message))
    ensures with_.NoArg? ==> m.with == None
  {
    var params := match with_
      case StringArg(s) => Some(Strings([s] + rest))
      case MessageArg(msg) => Some(Nested(msg))
      case NoArg => None;
    RawMessage(None, Some(key), params)
  }

  /** With a RawMessage parameter, the further arguments make no difference. */
  lemma TranslateIgnoresRestForMessage(key: string, msg: RawMessage, rest1: seq<string>, rest2: seq<string>)
    ensures Translate(key, MessageArg(msg), rest1) == Translate(key, MessageArg(msg), rest2)
  {
  }

  /** With a string parameter, the argument list is recovered in order from `with`. */
  lemma TranslateKeepsArgumentOrder(key: string, first: string, rest: seq<string>, k: nat)
    requires k < |rest|
    ensures Translate(key, StringArg(first), rest).with.value.strings[k + 1] == rest[k]
  {
  }
}
