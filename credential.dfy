/**
 * The verifiable credential exchanged at login, in the shape the verifier's schema accepts
 * (app/api/auth/verify/route.ts), and the claim object whose serialisation is signed.
 */
module Credential {
  import opened Json
  import opened Bytes
  import Utf8

  const CredentialsContext := "https://www.w3.org/2018/credentials/v1"
  const VerifiableCredentialType := "VerifiableCredential"
  const ProofType := "Ed25519Signature2018"
  const ProofPurpose := "authentication"

  datatype Subject = Subject(id: string, nonce: string)

  /** Everything of the credential except `proof`. */
  datatype Claim = Claim(
    context: seq<string>,
    types: seq<string>,
    issuer: string,
    issuanceDate: string,
    subject: Subject)

  datatype Proof = Proof(
    proofType: string,
    created: string,
    verificationMethod: string,
    proofPurpose: string,
    signature: string)

  datatype Credential = Credential(claim: Claim, proof: Proof)

  /** A string array as JSON. */
  function Strings(ss: seq<string>): (j: Json)
    ensures j.JArr? && |j.items| == |ss|
    ensures forall i :: 0 <= i < |ss| ==> j.items[i] == JStr(ss[i])
  {
    JArr(seq(|ss|, i requires 0 <= i < |ss| => JStr(ss[i])))
  }

  /** The subject object as the schema outputs it: `id`, then `nonce`. */
  function SubjectJson(s: Subject): Json
  {
    JObj([Field("id", JStr(s.id)), Field("nonce", JStr(s.nonce))])
  }

  /**
   * The object the verifier serialises: `@context`, `type`, `issuer`, `issuanceDate` and
   * `credentialSubject`, in that order and nothing else, so `proof` is never part of it.
   */
  function ClaimJson(c: Claim): (j: Json)
    ensures j.JObj? && |j.fields| == 5
    ensures j.fields[0].key == "@context" && j.fields[1].key == "type" && j.fields[2].key == "issuer"
    ensures j.fields[3].key == "issuanceDate" && j.fields[4].key == "credentialSubject"
  {
    JObj([
      Field("@context", Strings(c.context)),
      Field("type", Strings(c.types)),
      Field("issuer", JStr(c.issuer)),
      Field("issuanceDate", JStr(c.issuanceDate)),
      Field("credentialSubject", SubjectJson(c.subject))])
  }

  function ProofJson(p: Proof): Json
  {
    JObj([
      Field("type", JStr(p.proofType)),
      Field("created", JStr(p.created)),
      Field("verificationMethod", JStr(p.verificationMethod)),
      Field("proofPurpose", JStr(p.proofPurpose)),
      Field("signature", JStr(p.signature))])
  }

  /** `util.decodeUTF8(JSON.stringify(claim))`: the bytes the signature covers. */
  function CanonicalMessage(c: Claim): Bytes
  {
    Utf8.Encode(Stringify(ClaimJson(c)))
  }

  /**
   * Two claims that differ only in their nonce give different signed bytes, so a signature
   * over the claim for one nonce is never a signature over the claim for another.
   */
  lemma NonceBindsMessage(c: Claim, nonce: string)
    requires nonce != c.subject.nonce
    ensures CanonicalMessage(c) != CanonicalMessage(c.(subject := c.subject.(nonce := nonce)))
  {
    var d := c.(subject := c.subject.(nonce := nonce));
    if CanonicalMessage(c) == CanonicalMessage(d) {
      Utf8.EncodeInjective(Stringify(ClaimJson(c)), Stringify(ClaimJson(d)));
      var subjectC, subjectD := Field("credentialSubject", SubjectJson(c.subject)), Field("credentialSubject", SubjectJson(d.subject));
      SubjectTextEqual(ClaimJson(c).fields, ClaimJson(d).fields, subjectC, subjectD);
      var idField := Field("id", JStr(c.subject.id));
      NonceTextEqual(idField, Field("nonce", JStr(c.subject.nonce)), Field("nonce", JStr(nonce)));
      assert "\"" + Escape(c.subject.nonce) + "\"" == "\"" + Escape(nonce) + "\"";
      CancelAround("\"", Escape(c.subject.nonce), Escape(nonce), "\"");
      EscapeInjective(c.subject.nonce, nonce);
    }
  }

  /** Two objects with the same first members and equal serialisations have equal last members' serialisations. */
  lemma SubjectTextEqual(fc: seq<Field>, fd: seq<Field>, lastC: Field, lastD: Field)
    requires |fc| == |fd| == 5 && fc[..4] == fd[..4] && fc[4] == lastC && fd[4] == lastD && lastC.key == lastD.key
    requires Stringify(JObj(fc)) == Stringify(JObj(fd))
    ensures Stringify(lastC.value) == Stringify(lastD.value)
  {
    var head := fc[..4];
    assert fc == head + [lastC] && fd == head + [lastD];
    StringifyFieldsSnoc(head, lastC);
    StringifyFieldsSnoc(head, lastD);
    CancelAround("{", StringifyFields(fc), StringifyFields(fd), "}");
    CancelHead(StringifyFields(head) + ",", StringifyField(lastC), StringifyField(lastD));
    CancelHead(Quote(lastC.key) + ":", Stringify(lastC.value), Stringify(lastD.value));
  }

  /** Subjects with the same `id` and equal serialisations have equally serialised nonces. */
  lemma NonceTextEqual(id: Field, nonceC: Field, nonceD: Field)
    requires nonceC.key == nonceD.key
    requires Stringify(JObj([id, nonceC])) == Stringify(JObj([id, nonceD]))
    ensures Stringify(nonceC.value) == Stringify(nonceD.value)
  {
    assert [id, nonceC] == [id] + [nonceC] && [id, nonceD] == [id] + [nonceD];
    StringifyFieldsSnoc([id], nonceC);
    StringifyFieldsSnoc([id], nonceD);
    assert StringifyFields([id]) == StringifyField(id) + StringifyMoreFields([]);
    CancelAround("{", StringifyFields([id, nonceC]), StringifyFields([id, nonceD]), "}");
    CancelHead(StringifyFields([id]) + ",", StringifyField(nonceC), StringifyField(nonceD));
    CancelHead(Quote(nonceC.key) + ":", Stringify(nonceC.value), Stringify(nonceD.value));
  }

  lemma CancelAround(head: string, x: string, y: string, tail: string)
    requires head + x + tail == head + y + tail
    ensures x == y
  {
    var z := head + x + tail;
    assert |x| == |y|;
    assert x == z[|head|..|head| + |x|] == y;
  }

  lemma CancelHead(head: string, x: string, y: string)
    requires head + x == head + y
    ensures x == y
  {
    assert x == (head + x)[|head|..] == y;
  }

  /** The whole credential as JSON: the claim's members followed by `proof`. */
  function CredentialJson(c: Credential): (j: Json)
    ensures j.JObj? && |j.fields| == 6 && j.fields[..5] == ClaimJson(c.claim).fields
    ensures j.fields[5] == Field("proof", ProofJson(c.proof))
  {
    JObj(ClaimJson(c.claim).fields + [Field("proof", ProofJson(c.proof))])
  }
}
