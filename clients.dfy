/** Backend clients (Pyrogram `Client` objects) as abstract handles. */
module Clients {

  /** A started client: `handle` is the object's identity (Python compares
      and hashes clients by identity), `meId`, `username` and `firstName`
      come from its `me`, the account it is logged in as. */
  datatype Client = Client(handle: nat, meId: int, username: string, firstName: string)
}
