/** The chat messages both completion clients send. */
module Completion {

  datatype Role = System | User | Assistant

  datatype Message = Message(role: Role, text: string)
}
