/** The identifiers of the lockdrop: Ethereum addresses and Edgeware public keys. */
module LockdropKeys {

  datatype EthAddress = EthAddress(hex: string)

  datatype EdgewareKey = EdgewareKey(hex: string)

  /**
   A contribution goes to the first key when several, or an over-long one, were
   submitted: the first 64 characters after the two-character prefix. A shorter
   submission is kept as it is (its funds are considered lost).
   */
  function FirstKey(edgewareAddr: string): EdgewareKey
  {
    EdgewareKey(if |edgewareAddr| >= 66 then "0x" + edgewareAddr[2..66] else edgewareAddr)
  }

  /** What an ordinary submission looks like: the prefix and 64 more characters. */
  predicate IsOrdinaryKey(s: string)
  {
    |s| == 66 && s[0] == '0' && s[1] == 'x'
  }

  /** An ordinary key is credited as it is, whatever was appended to it. */
  lemma OrdinaryKeyIsItself(s: string, rest: string)
    requires IsOrdinaryKey(s)
    ensures FirstKey(s + rest) == EdgewareKey(s)
  {
    assert (s + rest)[2..66] == s[2..];
    assert "0x" + s[2..] == s;
  }

  lemma ShortSubmissionIsKept(s: string)
    requires |s| < 66
    ensures FirstKey(s) == EdgewareKey(s)
  {
  }

  /** Which submissions are credited to an ordinary key. */
  lemma CreditedToOrdinaryKey(submission: string, s: string)
    requires IsOrdinaryKey(s)
    ensures FirstKey(submission) == EdgewareKey(s) <==> |submission| >= 66 && submission[2..66] == s[2..]
  {
    assert "0x" + s[2..] == s;
    if |submission| >= 66 {
      assert ("0x" + submission[2..66])[2..] == submission[2..66];
    }
  }
}
