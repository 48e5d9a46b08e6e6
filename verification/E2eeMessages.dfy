/** What the HPKE and the group session have in common: the protocol version and the log of accepted messages. */
module E2eeMessages {
  const E2EE_VERSION := "1.1"

  datatype Accepted = Accepted(seqNo: int, text: string)

  function Texts(got: seq<Accepted>): (r: seq<string>)
    ensures |r| == |got| && forall i :: 0 <= i < |got| ==> r[i] == got[i].text
  {
    if got == [] then [] else Texts(got[..|got| - 1]) + [got[|got| - 1].text]
  }
}
