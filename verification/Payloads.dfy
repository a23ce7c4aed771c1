/** What L0 accepts (pkg/l0/l0_cache.go:195-206): a key and a value, and the value within the payload limit. */
module Payloads {
  import opened Bytes

  predicate Storable(maxPayload: nat, key: string, value: seq<Byte>) {
    key != "" && value != [] && |value| <= maxPayload
  }
}
