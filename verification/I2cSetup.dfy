/**
  The transfer record a caller hands to the I2C master, in either mode, and the status word in it.
 */
module I2cSetup {
  import opened I2cBus

  // Bits 8 to 10 of the status word beside the code in its low byte.
  datatype Status = Status(code: Byte, arbitration: bool, noAck: bool, done: bool)

  const NO_STATUS := Status(0, false, false, false)

  class MasterSetup {
    const address: Address7
    const txData: array?<Byte>
    const txLength: nat
    const rxData: array?<Byte>
    const rxLength: nat
    const retransmissionsMax: nat
    var txCount: nat
    var rxCount: nat
    var retransmissionsCount: nat
    var status: Status

    constructor (address: Address7, txData: array?<Byte>, txLength: nat, rxData: array?<Byte>, rxLength: nat,
                 retransmissionsMax: nat, retransmissionsCount: nat)
      requires txData == null || txLength <= txData.Length
      requires rxData == null || (rxLength <= rxData.Length && rxData != txData)
      ensures Ready() && rxCount == 0 && this.retransmissionsCount == retransmissionsCount
      ensures Tx() == (if txData == null then [] else txData[..txLength]) && Rx() == if rxData == null then 0
          else rxLength
    {
      this.address, this.txData, this.txLength := address, txData, txLength;
      this.rxData, this.rxLength, this.retransmissionsMax := rxData, rxLength, retransmissionsMax;
      txCount, rxCount, status := 0, 0, NO_STATUS;
      this.retransmissionsCount := retransmissionsCount;
    }

    // The buffers are as long as their lengths say and do not overlap.
    predicate Ready() {
      && (txData != null ==> txLength <= txData.Length)
      && (rxData != null ==> rxLength <= rxData.Length && rxData != txData)
    }

    // A length counts only when its buffer is present.
    function Tx(): seq<Byte>
      requires Ready()
      reads txData
    {
      if txData == null then [] else txData[..txLength]
    }

    function Rx(): nat {
      if rxData == null then 0 else rxLength
    }

    // What has been stored so far.
    function Received(): seq<Byte>
      requires Ready() && rxCount <= Rx()
      reads this, rxData
    {
      if rxData == null then [] else rxData[..rxCount]
    }
  }
}
