/** The fixed data served when the database cannot be reached.

    Every record's creation time (and each promo's expiry, which is a fixed
    number of days after it) is taken when the data is loaded; `loadedAt` is
    that instant. Prices are in hundredths: '2500' is 250000. */
module Fallback {
  import opened Wrappers
  import opened Schema

  const DayMillis: int := 24 * 60 * 60 * 1000

  function Cat(id: int, name: string, nameBn: string, slug: string, loadedAt: int): Category {
    Category(id, name, nameBn, slug, None, None, loadedAt)
  }

  function FallbackCategories(loadedAt: int): seq<Category> {
    [ Cat(1, "Mugs & Drinkware", "মগ ও পানীয় পাত্র", "mugs-drinkware", loadedAt),
      Cat(2, "Clothing", "পোশাক", "clothing", loadedAt),
      Cat(3, "Keychains", "কীচেইন", "keychains", loadedAt),
      Cat(4, "Bottles & Flasks", "বোতল ও ফ্লাস্ক", "bottles-flasks", loadedAt),
      Cat(5, "Accessories", "অ্যাক্সেসরিজ", "accessories", loadedAt),
      Cat(6, "Jewelry & Beauty", "গহনা ও সৌন্দর্য", "jewelry-beauty", loadedAt),
      Cat(7, "Home Decor", "বাড়ির সাজসজ্জা", "home-decor", loadedAt),
      Cat(8, "Baby Items", "শিশু সামগ্রী", "baby-items", loadedAt),
      Cat(9, "Couple Items", "কাপল আইটেম", "couple-items", loadedAt),
      Cat(10, "Gift Hampers", "গিফট হ্যাম্পার", "gift-hampers", loadedAt),
      Cat(11, "Flowers & Chocolates", "ফুল ও চকলেট", "flowers-chocolates", loadedAt) ]
  }

  /** A fallback product: every one is in stock and has a name, description,
      original price, category, one image, stock count, rating and tags. */
  function Item(id: int, name: string, nameBn: string, description: string,
                price: int, originalPrice: int, categoryId: int, image: string,
                featured: bool, stockQuantity: int, rating: int, reviewCount: int,
                tags: seq<string>, loadedAt: int): Product
  {
    Product(id, name, Some(nameBn), Some(description), None, price, Some(originalPrice),
            Some(categoryId), Some([image]), Some(true), Some(stockQuantity), Some(rating),
            Some(reviewCount), Some(tags), Some(featured), loadedAt)
  }

  // The texts of the five products. The two longest descriptions are split
  // into two concatenated literals; the text is unchanged.

  const HeadphonesName: string := "Premium Bluetooth Headphones"
  const HeadphonesNameBn: string := "প্রিমিয়াম ব্লুটুথ হেডফোন"
  const HeadphonesDescription: string := "High-quality wireless " + "headphones with noise cancellation"
  const HeadphonesImage: string := "https://images.unsplash.com/photo-1505740420928-5e560c06d30e?w=500"
  const HeadphonesTags: seq<string> := ["wireless", "bluetooth", "noise-cancellation"]

  const ShirtName: string := "Stylish Cotton T-Shirt"
  const ShirtNameBn: string := "স্টাইলিশ কটন টি-শার্ট"
  const ShirtDescription: string := "Comfortable and fashionable cotton t-shirt"
  const ShirtImage: string := "https://images.unsplash.com/photo-1521572163474-6864f9cf17ab?w=500"
  const ShirtTags: seq<string> := ["cotton", "casual", "comfortable"]

  const LampName: string := "Smart LED Table Lamp"
  const LampNameBn: string := "স্মার্ট LED টেবিল ল্যাম্প"
  const LampDescription: string := "Energy-efficient " + "LED lamp with smart controls"
  const LampImage: string := "https://images.unsplash.com/photo-1507003211169-0a1dd7228f2d?w=500"
  const LampTags: seq<string> := ["LED", "smart", "energy-efficient"]

  const MatName: string := "Yoga Mat Premium"
  const MatNameBn: string := "প্রিমিয়াম যোগ ম্যাট"
  const MatDescription: string := "Non-slip yoga mat for all fitness levels"
  const MatImage: string := "https://images.unsplash.com/photo-1544367567-0f2fcb009e0b?w=500"
  const MatTags: seq<string> := ["yoga", "fitness", "non-slip"]

  const BookName: string := "Programming Fundamentals Book"
  const BookNameBn: string := "প্রোগ্রামিং ফান্ডামেন্টাল বই"
  const BookDescription: string := "Comprehensive guide to programming basics"
  const BookImage: string := "https://images.unsplash.com/photo-1544716278-ca5e3f4abd8c?w=500"
  const BookTags: seq<string> := ["programming", "education", "beginner"]

  function P1(t: int): Product {
    Item(1, HeadphonesName, HeadphonesNameBn, HeadphonesDescription, 250000, 300000, 1, HeadphonesImage,
         true, 50, 45, 125, HeadphonesTags, t)
  }

  function P2(t: int): Product {
    Item(2, ShirtName, ShirtNameBn, ShirtDescription, 120000, 150000, 2, ShirtImage,
         true, 100, 43, 89, ShirtTags, t)
  }

  function P3(t: int): Product {
    Item(3, LampName, LampNameBn, LampDescription, 180000, 220000, 3, LampImage,
         false, 30, 47, 45, LampTags, t)
  }

  function P4(t: int): Product {
    Item(4, MatName, MatNameBn, MatDescription, 150000, 180000, 4, MatImage,
         true, 75, 46, 67, MatTags, t)
  }

  function P5(t: int): Product {
    Item(5, BookName, BookNameBn, BookDescription, 80000, 100000, 5, BookImage,
         false, 20, 48, 34, BookTags, t)
  }

  function FallbackProducts(loadedAt: int): seq<Product> {
    [P1(loadedAt), P2(loadedAt), P3(loadedAt), P4(loadedAt), P5(loadedAt)]
  }

  /** The fallback promos carry no minimum amount or discount cap. */
  function FallbackPromos(loadedAt: int): seq<Promo> {
    [ Promo(1, "WELCOME20", 2000, "percentage", None, None, Some(100), Some(5), Some(true),
            Some(loadedAt + 30 * DayMillis), loadedAt),
      Promo(2, "SAVE100", 10000, "fixed", None, None, Some(50), Some(12), Some(true),
            Some(loadedAt + 15 * DayMillis), loadedAt) ]
  }
}
