/** The id of a JSON-RPC message as the session manager decodes it (JSONRPCID in lsp-session-manager/main.go). */
module JsonRpcId {
  import opened Wrappers
  import opened Decimal

  /** The JSON value found under "id"; an absent id and null decode alike. */
  datatype JsonId = Absent | Number(n: int) | Text(text: string)

  datatype Id = Id(intValue: Option<int>, strValue: Option<string>) {
    predicate IsSet() {
      intValue.Some? || strValue.Some?
    }

    function AsInt64(): int {
      match intValue
      case Some(i) => i
      case None => 0
    }
  }

  function Unmarshal(json: JsonId): Id {
    match json
    case Absent => Id(None, None)
    case Number(n) => Id(Some(n), None)
    case Text(s) => Id(ParseInt64(s), Some(s))
  }

  /** A server may send the id back as a number or as the number's text; both select the same pending entry. */
  lemma TextAndNumberAgree(v: int)
    requires IsInt64(v)
    ensures Unmarshal(Number(v)).AsInt64() == Unmarshal(Text(Printed(v))).AsInt64() == v
    ensures Unmarshal(Number(v)).IsSet() && Unmarshal(Text(Printed(v))).IsSet()
  {
    ParsesPrinted(v);
  }
}
