/** The chat message the relay produces: one section block with a markdown text and an
    image accessory, wrapped with a response type. */
module SlackModel {

  /** The block's text object: `type` is the text format, `text` the literal text. */
  datatype Text = Text(kind: string, text: string)

  /** The block's image accessory. */
  datatype Accessory = Accessory(kind: string, imageUrl: string, altText: string)

  /** One section block (`Blocks` in the route types, `SlackMessage` in the adapter types). */
  datatype Block = Block(kind: string, text: Text, accessory: Accessory)

  /** The envelope returned to a slash command. */
  datatype Message = Message(blocks: seq<Block>, responseType: string)
}
