/** Marks that the address filters put on the records of a set (internal/types/dns_types.go). */
module Masks {

  const WHITE := 0
  const GREY := 1
  const BLACK := 2
}
