/** What a message says: the columns of the outbox no statement updates, and what both validators ask of them. */
module OutboxContent {
  import opened Common
  import opened Secrets
  import opened DeliveryData

  datatype DispatchContext = DispatchContext(tenantId: string, requestId: Option<string>, locale: Option<string>,
                                             metadata: Value)

  /** `body` is the delivery message. */
  datatype Content = Content(context: DispatchContext, secretPurpose: string, messageType: string, body: Value,
                             required: bool, createdAt: int)

  const DELIVERY := "delivery"
  const PURPOSE := "authmodules.outbox.delivery"

  predicate OptionalText(text: Option<string>, maxLength: nat) {
    text.Some? ==> SafeText(text.value, maxLength, true)
  }

  predicate IsContext(c: DispatchContext, tenantId: string, who: Validator) {
    && c.tenantId == tenantId && SafeText(c.tenantId, 512, true)
    && OptionalText(c.requestId, 512) && OptionalText(c.locale, 128)
    && (c.metadata.Undefined? || IsJsonObject(c.metadata, who))
  }

  predicate IsContent(c: Content, tenantId: string, messageId: string, who: Validator) {
    && IsContext(c.context, tenantId, who)
    && SafeText(c.secretPurpose, 4096, true) && c.secretPurpose == OutboxSecretPurpose(tenantId, messageId)
    && c.messageType == DELIVERY && IsDeliveryMessage(c.body, who)
  }

  function ContextNodes(c: DispatchContext): nat {
    2 + (if c.requestId.Some? then 1 else 0) + (if c.locale.Some? then 1 else 0)
    + if c.metadata.Undefined? then 0 else Nodes(c.metadata)
  }

  /** What the plain serializer asks of a valid context besides: it counts the context itself, so the metadata starts one
      level down. */
  predicate SerializesContext(c: DispatchContext) {
    (c.metadata.Undefined? || IsJson(c.metadata, 1, Store)) && ContextNodes(c) <= MAX_NODES
  }

  // ---- The purpose secrets are sealed for ----

  /** Text without control characters between the quotes of JSON. */
  function Escaped(text: string): string {
    if text == [] then []
    else if text[0] == '"' || text[0] == '\\' then ['\\', text[0]] + Escaped(text[1..])
    else [text[0]] + Escaped(text[1..])
  }

  function Quoted(text: string, after: string): string {
    ['"'] + Escaped(text) + ['"'] + after
  }

  function OutboxSecretPurpose(tenantId: string, messageId: string): string {
    ['['] + Quoted(PURPOSE, [','] + Quoted(tenantId, [','] + Quoted(messageId, [']'])))
  }

  lemma {:induction false} EscapedEndsOnce(a: string, b: string, x: string, y: string)
    requires Escaped(a) + ['"'] + x == Escaped(b) + ['"'] + y
    ensures a == b && x == y
  {
    var left, right := Escaped(a) + ['"'] + x, Escaped(b) + ['"'] + y;
    if a == [] || b == [] {
      assert left[0] == right[0];
      assert left[1..] == right[1..];
    } else {
      assert left[0] == right[0] && left[1] == right[1];
      assert a[0] == b[0];
      var skip := if a[0] == '"' || a[0] == '\\' then 2 else 1;
      assert left[..2] == right[..2];
      assert left[skip..] == Escaped(a[1..]) + ['"'] + x;
      assert right[skip..] == Escaped(b[1..]) + ['"'] + y;
      EscapedEndsOnce(a[1..], b[1..], x, y);
      assert a == [a[0]] + a[1..] && b == [b[0]] + b[1..];
    }
  }

  lemma QuotedEndsOnce(a: string, b: string, x: string, y: string)
    requires Quoted(a, x) == Quoted(b, y)
    ensures a == b && x == y
  {
    assert Quoted(a, x)[1..] == Escaped(a) + ['"'] + x;
    assert Quoted(b, y)[1..] == Escaped(b) + ['"'] + y;
    EscapedEndsOnce(a, b, x, y);
  }

  /** No two messages share a purpose, so a secret sealed for one never unseals as another's. */
  lemma PurposeNamesTheMessage(t1: string, m1: string, t2: string, m2: string)
    ensures OutboxSecretPurpose(t1, m1) == OutboxSecretPurpose(t2, m2) <==> t1 == t2 && m1 == m2
  {
    if OutboxSecretPurpose(t1, m1) == OutboxSecretPurpose(t2, m2) {
      var x, y := [','] + Quoted(m1, [']']), [','] + Quoted(m2, [']']);
      assert OutboxSecretPurpose(t1, m1)[1..] == Quoted(PURPOSE, [','] + Quoted(t1, x));
      assert OutboxSecretPurpose(t2, m2)[1..] == Quoted(PURPOSE, [','] + Quoted(t2, y));
      QuotedEndsOnce(PURPOSE, PURPOSE, [','] + Quoted(t1, x), [','] + Quoted(t2, y));
      assert ([','] + Quoted(t1, x))[1..] == Quoted(t1, x) && ([','] + Quoted(t2, y))[1..] == Quoted(t2, y);
      QuotedEndsOnce(t1, t2, x, y);
      assert x[1..] == Quoted(m1, [']']) && y[1..] == Quoted(m2, [']']);
      QuotedEndsOnce(m1, m2, [']'], [']']);
    }
  }

  predicate Printable(text: string) {
    forall i :: 0 <= i < |text| ==> !IsControl(text[i])
  }

  lemma PrintableParts(a: string, b: string)
    requires Printable(a) && Printable(b)
    ensures Printable(a + b)
  {
  }

  lemma {:induction false} EscapedIsPrintable(text: string)
    requires Printable(text)
    ensures Printable(Escaped(text)) && |Escaped(text)| <= 2 * |text|
  {
    if text != [] {
      EscapedIsPrintable(text[1..]);
    }
  }

  lemma QuotedIsPrintable(text: string, after: string)
    requires Printable(text) && Printable(after)
    ensures Printable(Quoted(text, after)) && |Quoted(text, after)| <= 2 * |text| + 2 + |after|
  {
    EscapedIsPrintable(text);
    PrintableParts(['"'], Escaped(text));
    PrintableParts(['"'] + Escaped(text), ['"']);
    PrintableParts(['"'] + Escaped(text) + ['"'], after);
  }

  /** The purpose of a valid message id is never too long and never unsafe: that test decides nothing. */
  lemma PurposeIsSafe(tenantId: string, messageId: string)
    requires SafeText(tenantId, 512, true) && SafeText(messageId, 512, true)
    ensures SafeText(OutboxSecretPurpose(tenantId, messageId), 4096, true)
  {
    assert |PURPOSE| == 27 && Printable(PURPOSE);
    QuotedIsPrintable(messageId, [']']);
    var message := [','] + Quoted(messageId, [']']);
    PrintableParts([','], Quoted(messageId, [']']));
    QuotedIsPrintable(tenantId, message);
    PrintableParts([','], Quoted(tenantId, message));
    QuotedIsPrintable(PURPOSE, [','] + Quoted(tenantId, message));
    PrintableParts(['['], Quoted(PURPOSE, [','] + Quoted(tenantId, message)));
  }
}
