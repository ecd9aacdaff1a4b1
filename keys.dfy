/** Keys: the credentials for the bridge, a plain record of three strings. */
module Credentials {
  import opened JavaLang

  /** The user's email, the password, and the mnemonic that encrypts file contents and names. */
  datatype Keys = Keys(user: JString, pass: JString, mnemonic: JString)
}
