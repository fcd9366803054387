/** Request payloads (src/Dto), after the framework has mapped and validated them. */
module Dto {
  datatype BasketItemDto = BasketItemDto(productId: int)

  datatype UserDto = UserDto(email: string, firstName: string, lastName: string)
}
