/**
  What a message makes the bot do to the outside world, in order: texts sent back
  to the customer (`waSendText`) and operator alerts (`notifyAlert`). A reply is
  recorded by kind together with the parts of it that vary; an alert by the fields
  the source fills in ("" for the ones it leaves out).
 */
module Events {

  datatype Reply =
    | HoursNotice                       // server.js:219-222
    | CardEcho(card: string)            // server.js:229
    | DeliveryDetailsRequest            // server.js:232, 280
    | MainMenu                          // server.js:241-247
    | FavoritesList                     // server.js:252-257
    | OutOfStock(itemName: string)      // server.js:268-271
    | Available(itemName: string)       // server.js:275
    | PriceQuote(price: int)            // server.js:277-278
    | ClosingDetailsRequest             // server.js:292
    | RuleText(body: string)            // server.js:152
    | AlertAcknowledged                 // server.js:159
    | FormFieldList(fields: seq<string>) // server.js:167
    | FormFirstField(field: string)     // server.js:168
    | FormNextField(field: string)      // server.js:184
    | FormThanks(body: string)          // server.js:186
    | Help                              // server.js:300

  datatype Event =
    | Send(to: string, reply: Reply)
    | Alert(kind: string, customer: string, product: string, code: string, note: string)

}
