/** The payload amendment for just-in-time channels: an HTLC that pays less than
    the onion demands is forwarded with the amount it really carries. */
module Lsp {
  import opened Prims
  import opened Tlv
  import opened TlvTheory

  const TLV_FORWARD_AMT: u64 := 2
  const TLV_PAYMENT_SECRET: u64 := 8

  datatype HtlcAccepted = HtlcAccepted(payload: seq<TlvEntry>, forwardMsat: Option<u64>, htlcMsat: u64)

  /** The node's answer to the invoice lookup: the amount, if any, of each match. */
  datatype InvoiceReply = RpcFailed | Invoices(amounts: seq<Option<u64>>)

  /** `Continue(None)` leaves the payload to the node as it is; `Panicked` is the
      slice of the first 32 bytes of a shorter secret. */
  datatype HookResult = Continue(payload: Option<Bytes>) | RpcError | Panicked

  /** `req` is `None` if the hook's JSON could not be decoded. */
  method OnHtlcAccepted(req: Option<HtlcAccepted>, reply: InvoiceReply) returns (r: HookResult)
    ensures r == Hook(req, reply)
  {
    if req == None || req.value.forwardMsat == None {
      return Continue(None);
    }
    var htlcAmt, onionAmt := req.value.htlcMsat, req.value.forwardMsat.value;
    if htlcAmt < onionAmt {
      var payload := new SerializedTlvStream.Clone(req.value.payload);
      payload.SetTu64(TLV_FORWARD_AMT, htlcAmt);
      var secret := payload.Get(TLV_PAYMENT_SECRET);
      if secret == None {
        return Continue(None);
      }
      if reply.RpcFailed? {
        return RpcError;
      }
      if reply.amounts == [] || reply.amounts[0] == None {
        return Continue(None);
      }
      if |secret.value.value| < 32 {
        return Panicked;
      }
      var ps := new BytesMut();
      ps.Put(secret.value.value[0..32]);
      ps.PutTu64(reply.amounts[0].value);
      assert ps.b == PaymentData(secret.value.value, reply.amounts[0].value);
      payload.SetBytes(TLV_PAYMENT_SECRET, ps.b);
      var bytes := payload.ToBytes();
      r := Continue(Some(bytes));
    } else {
      r := Continue(None);
    }
  }

  /** The first 32 bytes of the secret, then the total amount. */
  function PaymentData(secret: Bytes, total: u64): Value
    requires |secret| >= 32
  {
    secret[0..32] + Tu64(total)
  }

  /** The payload sent on for amount `htlc` of an invoice over `total`. */
  function Amended(payload: seq<TlvEntry>, htlc: u64, secret: Bytes, total: u64): seq<TlvEntry>
    requires |secret| >= 32
  {
    WithValue(WithValue(payload, TLV_FORWARD_AMT, Tu64(htlc)), TLV_PAYMENT_SECRET, PaymentData(secret, total))
  }

  function Hook(req: Option<HtlcAccepted>, reply: InvoiceReply): HookResult {
    match req
    case Some(HtlcAccepted(payload, Some(forward), htlc)) =>
      var secret := Lookup(WithValue(payload, TLV_FORWARD_AMT, Tu64(htlc)), TLV_PAYMENT_SECRET);
      if htlc >= forward || secret == None then Continue(None)
      else if reply.RpcFailed? then RpcError
      else if reply.amounts == [] || reply.amounts[0] == None then Continue(None)
      else if |secret.value.value| < 32 then Panicked
      else Continue(Some(Serialized(Amended(payload, htlc, secret.value.value, reply.amounts[0].value))))
    case _ => Continue(None)
  }

  /** An underpaid HTLC whose payload carries a payment secret, with a matching invoice over `total`. */
  predicate IsJit(req: Option<HtlcAccepted>, reply: InvoiceReply) {
    && req.Some? && req.value.forwardMsat.Some? && req.value.htlcMsat < req.value.forwardMsat.value
    && Lookup(req.value.payload, TLV_PAYMENT_SECRET).Some?
    && reply.Invoices? && reply.amounts != [] && reply.amounts[0].Some?
  }

  /** When the hook amends, when it panics, when the invoice lookup's failure is
      passed on, and that it leaves the payload alone in all other cases. Type 8
      is the payment secret. */
  lemma HookExactly(req: Option<HtlcAccepted>, reply: InvoiceReply)
    ensures var r := Hook(req, reply);
            var asks := req.Some? && req.value.forwardMsat.Some?
                        && req.value.htlcMsat < req.value.forwardMsat.value && Lookup(req.value.payload, 8).Some?;
            var priced := asks && reply.Invoices? && |reply.amounts| > 0 && reply.amounts[0].Some?;
            var long := asks && |Lookup(req.value.payload, 8).value.value| >= 32;
            && (r == RpcError <==> asks && reply.RpcFailed?)
            && (r == Panicked <==> priced && !long)
            && (r.Continue? && r.payload.Some? <==> priced && long)
            && (r == Continue(None) <==> !asks || (reply.Invoices? && !priced))
            && (IsJit(req, reply) <==> priced)
  {
    if req.Some? {
      LookupWithValue(req.value.payload, 2, Tu64(req.value.htlcMsat), 8);
    }
  }

  /** The stream `es` carries amount `htlc` in type 2, the first 32 bytes of the
      secret and the total `total` in type 8, and every other type as it was in
      `sent`, still in strictly increasing order if it was before. */
  ghost predicate Reads(es: seq<TlvEntry>, sent: seq<TlvEntry>, htlc: u64, secret: Bytes, total: u64)
    requires |secret| >= 32
  {
    && Lookup(es, 2).Some? && Lookup(es, 8).Some?
    && FromBE(Lookup(es, 2).value.value) == htlc
    && var data := Lookup(es, 8).value.value;
    && |data| >= 32 && data[..32] == secret[..32] && FromBE(data[32..]) == total
    && (forall t :: t != 2 && t != 8 ==> Lookup(es, t) == Lookup(sent, t))
    && (Increasing(sent) ==> Increasing(es))
  }

  lemma AmendedReads(sent: seq<TlvEntry>, htlc: u64, secret: Bytes, total: u64)
    requires |secret| >= 32
    ensures Reads(Amended(sent, htlc, secret, total), sent, htlc, secret, total)
  {
    AmendedLookups(sent, htlc, secret, total);
    Tu64Value(htlc);
    Tu64Value(total);
    assert PaymentData(secret, total)[..32] == secret[..32] && PaymentData(secret, total)[32..] == Tu64(total);
    if Increasing(sent) {
      AmendedIncreasing(sent, htlc, secret, total);
    }
  }

  lemma HookAmends(req: Option<HtlcAccepted>, reply: InvoiceReply)
    requires IsJit(req, reply) && |Lookup(req.value.payload, TLV_PAYMENT_SECRET).value.value| >= 32
    ensures Hook(req, reply) ==
            Continue(Some(Serialized(Amended(req.value.payload, req.value.htlcMsat,
                                             Lookup(req.value.payload, TLV_PAYMENT_SECRET).value.value,
                                             reply.amounts[0].value))))
  {
    LookupWithValue(req.value.payload, TLV_FORWARD_AMT, Tu64(req.value.htlcMsat), TLV_PAYMENT_SECRET);
  }

  /** What the next hop parses from the amended bytes, which are canonical. */
  lemma JitAmendment(req: Option<HtlcAccepted>, reply: InvoiceReply)
    requires IsJit(req, reply) && |Lookup(req.value.payload, TLV_PAYMENT_SECRET).value.value| >= 32
    ensures var r := Hook(req, reply);
            && r.Continue? && r.payload.Some? && Parsed(r.payload.value).Some? && Canonical(r.payload.value)
            && Reads(Parsed(r.payload.value).value, req.value.payload, req.value.htlcMsat,
                     Lookup(req.value.payload, TLV_PAYMENT_SECRET).value.value, reply.amounts[0].value)
  {
    var sent, htlc, total := req.value.payload, req.value.htlcMsat, reply.amounts[0].value;
    var secret := Lookup(sent, TLV_PAYMENT_SECRET).value.value;
    var amended := Amended(sent, htlc, secret, total);
    HookAmends(req, reply);
    RoundTrip(amended);
    SerializedCanonical(amended);
    AmendedReads(sent, htlc, secret, total);
  }

  lemma AmendedIncreasing(sent: seq<TlvEntry>, htlc: u64, secret: Bytes, total: u64)
    requires |secret| >= 32 && Increasing(sent)
    ensures Increasing(Amended(sent, htlc, secret, total))
  {
    WithValueIncreasing(sent, TLV_FORWARD_AMT, Tu64(htlc));
    WithValueIncreasing(WithValue(sent, TLV_FORWARD_AMT, Tu64(htlc)), TLV_PAYMENT_SECRET, PaymentData(secret, total));
  }

  lemma AmendedLookups(sent: seq<TlvEntry>, htlc: u64, secret: Bytes, total: u64)
    requires |secret| >= 32
    ensures forall t :: Lookup(Amended(sent, htlc, secret, total), t) ==
                        if t == TLV_PAYMENT_SECRET then Some(TlvEntry(t, PaymentData(secret, total)))
                        else if t == TLV_FORWARD_AMT then Some(TlvEntry(t, Tu64(htlc)))
                        else Lookup(sent, t)
  {
    forall t ensures Lookup(Amended(sent, htlc, secret, total), t) ==
                     if t == TLV_PAYMENT_SECRET then Some(TlvEntry(t, PaymentData(secret, total)))
                     else if t == TLV_FORWARD_AMT then Some(TlvEntry(t, Tu64(htlc)))
                     else Lookup(sent, t)
    {
      LookupWithValue(sent, TLV_FORWARD_AMT, Tu64(htlc), t);
      LookupWithValue(WithValue(sent, TLV_FORWARD_AMT, Tu64(htlc)), TLV_PAYMENT_SECRET, PaymentData(secret, total), t);
    }
  }
}
