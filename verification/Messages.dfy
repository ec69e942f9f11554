/** Message numbers of the transport layer (section 4.1.2 of RFC 4250). */
module Messages {
  import opened Bytes

  const MSG_KEXINIT: Byte := 20
  const MSG_NEWKEYS: Byte := 21
}
