/** internal/keyvalue/kv.go: the key-value pair the formatters and archives pass around. */
module KeyValue {
  datatype KV = KV(k: string, v: string)
}
